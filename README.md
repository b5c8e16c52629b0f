# Train_Ai curation pipeline, modelled in Dafny

Train_Ai builds a dataset of Python automation scripts. A language model writes a script for each pending task (an `instruction` and an `input`). The pipeline then decides what to keep:

- two string-level semantic gates, a strict one and an automation one, each driven over the generated file by a batch driver that splits records into accepted and rejected;
- a line-based quality scorer;
- a retry loop (`auto_loop.py`) that gives each task up to three attempts, running a fixed chain of checks on each;
- a single-pass loop (`loop.py`) that routes each script to one of four JSON-Lines partitions and keeps six counters;
- a deduplicator for the generated file;
- a feedback step that re-queues failed tasks into the raw dataset;
- a formatter that turns HTTP Archive (HAR 1.2) entries into pending tasks.

The model keeps the source's own structure, one module per source file:

- `Semantic`, `Automation` and `Batch` are the gates and their shared driver.
- `Score` is the scorer, and `Evaluator` is the executor.
- `Generator` is the prompt, the output cleanup and the pending-task filter.
- `AutoLoop`, `Loop`, `Dedup`, `Feedback` and `Har` are the remaining scripts.
- Shared helpers:
  - `Text` holds Python's string operations (`strip`, `splitlines`, `in`, `startswith`, `lower`, `count`, `strip(c)`, `replace(…, 1)`, `join`).
  - `Urls` is the `re.findall` URL scan.
  - `Rules` is the ordered rule list whose first failure wins.
  - `Store` holds JSON-Lines files.

Files are modelled as a map from path to lines. A line is a JSON object with string values (`Parsed`) or a line `json.loads` rejects (`Malformed`). `Store.FileSystem` is that map as a mutable object: the drivers' appends and overwrites are methods on it, and their contracts give the whole new map.

These things are not part of the model; they enter as parameters:

- the language model's text;
- how the subprocess ends;
- whether `compile` succeeds;
- the `compute_score` report;
- fresh uuids.

Both loops are written once over their deterministic stages. The retry loop's stages are the cleanup and the semantic gate. The single-pass loop's stage is the cleanup. `AutoLoop.AutoLoopMain` and `Loop.MainLoop` instantiate them with the source's own functions.

## Model

| member | source | states |
|---|---|---|
| Text.Strip | scripts/generator.py:46 | `str.strip()`: the result is a slice of the text with no whitespace (Python `isspace`) at either end |
| Text.StripIdempotent | scripts/auto_loop.py:44 | stripping a stripped text changes nothing, so `generate_script(...).strip()` equals `generate_script(...)` |
| Text.StripTrims | scripts/generator.py:46 | `str.strip()` leaves a slice of the text with only whitespace before and after it, and no whitespace at its own ends |
| Text.StripExact | scripts/generator.py:46 | `str.strip()` is exactly the slice left once every leading and trailing whitespace character is removed: a text is the strip of `s` if and only if it is such a slice |
| Text.TrimmedUnique | scripts/generator.py:46-51 | trimming a set of characters from both ends leaves one text only |
| Text.StripChar | scripts/generator.py:50 | `strip("`")`: a slice of the text with no backtick at either end |
| Text.StripCharTrims | scripts/generator.py:50 | `strip("`")` removes only backticks, from both ends, and keeps the slice between them |
| Text.StripCharExact | scripts/generator.py:50 | a text is `s.strip(c)` if and only if it is the slice of `s` left once every `c` at either end is removed |
| Text.ReplaceFirst | scripts/generator.py:51 | `replace("python", "", 1)`: unchanged when absent; otherwise the text before the first occurrence, the replacement and the text after that occurrence |
| Text.FindAgreesWithContains | data/semantic_checker.py:19 | the search that finds the first occurrence agrees with Python's `in` |
| Text.ContainsTransitive | semantic_checker_automation.py:36-37 | a substring of a substring is a substring |
| Text.Lower | data/semantic_checker.py:11-12 | `lower()` keeps the length and lower-cases character by character |
| Text.CountChar | scripts/auto_loop.py:72 | `script.count("#")` is at most the length, and 0 exactly when the character is absent |
| Text.CountCharConcat | scripts/auto_loop.py:72 | the count over a concatenation is the sum of the counts |
| Text.LineEnd | scripts/score_checker.py:10 | the first line boundary recognised by `splitlines` at or after a position |
| Text.SplitLines | scripts/score_checker.py:10 | `splitlines()` is empty exactly for the empty text |
| Text.SplitLinesNoBreaks | scripts/score_checker.py:10 | no line that `splitlines()` returns holds a line boundary |
| Text.SplitLinesOfJoin | scripts/parser_har.py:21 | `"\n".join(lines).splitlines()` gives back `lines` when no line holds a boundary and the last is not empty |
| Text.SplitLinesCountsNewlines | scripts/score_checker.py:10-11 | a non-empty text not ending on a boundary has at least one line more than it has `\n` characters |
| Urls.RunEnd | data/semantic_checker.py:38 | the greedy character class `[^\s]+` / `[^\s"']+` stops at the first stopping character |
| Urls.UrlMatchAt | semantic_checker_automation.py:37 | a match starts with `https://` or `http://`, holds only class characters, and ends where the class stops (greedy) |
| Urls.ScanFromSound | data/semantic_checker.py:38 | every URL `re.findall` returns is a well-formed match and a substring of the scanned input |
| Urls.UrlsMentionHttp | semantic_checker_automation.py:36-37 | a scan that finds any URL implies that the text contains `http` |
| Urls.FirstMissing | data/semantic_checker.py:39-41 | the URLs before the reported one all occur in the code, and the reported one does not |
| Rules.FirstViolated | data/semantic_checker.py:15-43 | the first violated rule, with every earlier rule satisfied |
| Rules.FirstFailureMeaning | data/semantic_checker.py:15-43 | a rule list passes exactly when no rule is violated; a failure carries the reason of the first violated rule |
| Rules.FirstFailureOfSix | semantic_checker_automation.py:19-47 | six early returns read as one ordered rule list |
| Rules.FirstFailureOfSeven | data/semantic_checker.py:15-43 | seven early returns read as one ordered rule list |
| Semantic.CheckSemanticCompatibility | data/semantic_checker.py:10-43 | every rejection carries a non-empty reason |
| Semantic.CompatibilityFollowsRules | data/semantic_checker.py:15-41 | the early returns are the seven-rule table read in order: no import, no `requests`, no GET/POST, no Web3, no `input(`, no def/class, first missing URL |
| Semantic.CompatibilityPassIff | data/semantic_checker.py:15-43 | `(True, None)` exactly when the script starts with `import` after stripping, meets the http/Web3/`input(` conditions, defines a function or class, and contains every scanned URL |
| Semantic.CompatibilityRuleOrder | data/semantic_checker.py:16-23 | code not starting with `import` gets the no-import reason before any other rule; code with `requests` but neither `requests.get` nor `requests.post` gets the GET/POST reason |
| Semantic.MissingUrlIsFirst | data/semantic_checker.py:38-41 | a URL rejection names the first scanned URL, in input order, that the code lacks |
| Semantic.RunSemanticChecker | data/semantic_checker.py:45-75 | a missing input, or a line that raises, writes nothing; otherwise the final file holds the accepted records and the rejected file holds the tagged rejected ones |
| Automation.MentionsAnyMeaning | semantic_checker_automation.py:27 | `any(w in text for w in words)` holds exactly when some listed word occurs |
| Automation.CheckSemanticForAutomation | semantic_checker_automation.py:14-47 | rejections carry a non-empty reason, and an accepted script has at least two lines after stripping |
| Automation.AutomationFollowsRules | semantic_checker_automation.py:19-47 | the early returns are the six-rule table read in order: too short, empty `pass` function, no automation keyword, no structural marker, unused URL, swap/Web3 without Web3 |
| Automation.AutomationPassIff | semantic_checker_automation.py:14-47 | `(True, None)` exactly when the stripped script has two or more lines, is no `pass` stub of at most 5 lines, mentions an automation keyword and a structural marker, uses every scanned URL and meets the Web3 condition |
| Automation.UrlGuardRedundant | semantic_checker_automation.py:36-40 | the `"http" in input_text` guard never changes the verdict of the URL rule |
| Automation.RunSemanticCheckerAutomation | semantic_checker_automation.py:49-83 | as the strict driver, with the automation gate and the soft final file |
| Batch.Partition | data/semantic_checker.py:54-63 | the loop raises exactly on an unparsable or incomplete line; otherwise its lists are the accepted and the tagged rejected records and `total` counts every line, equal to their combined length |
| Batch.PartitionSizes | semantic_checker_automation.py:58-67 | every record lands in exactly one of the two lists |
| Batch.PartitionSound | data/semantic_checker.py:58-63 | accepted records are unchanged passing records; rejected records are failing records with `rejected_reason` set to the gate's reason |
| Batch.PartitionComplete | data/semantic_checker.py:58-63 | no record is lost: each passing record is accepted and each failing one rejected |
| Score.SkipSpace | scripts/score_checker.py:13 | `\s*` is greedy: it stops at the first non-whitespace character |
| Score.SkipSpaceRun | scripts/score_checker.py:13 | everything `\s*` consumes is whitespace |
| Score.KeywordMatch | scripts/score_checker.py:13-14 | a match of `def\s+\w+` / `class\s+\w+` begins with the keyword |
| Score.SkipSpaceTo | scripts/score_checker.py:13-15 | `\s*` stops exactly at the first non-whitespace character after a whitespace run |
| Score.KeywordMatchMeaning | scripts/score_checker.py:13-14 | `kw\s+\w+` matches at a position if and only if the keyword is there, followed by at least one whitespace character and then a word character |
| Score.MatchAt | scripts/score_checker.py:13-15 | a multi-line pattern matches only at a line start |
| Score.OpensAfterBlanks | scripts/score_checker.py:13-15 | the `d`, `c` or `#` a pattern opens with is where `^\s*` stops |
| Score.MatchAtMeaning | scripts/score_checker.py:13-15 | a pattern matches at a position if and only if it is a line start and the first non-whitespace character from there is `#` (comments) or opens `def`/`class` followed by whitespace and a word character |
| Score.NoMatchesIff | scripts/score_checker.py:13-15 | `findall` finds nothing if and only if no position starts a match |
| Score.AnalyzeCode | scripts/score_checker.py:9-34 | `line_count` is 0 exactly for empty stripped code; the three counts are the `findall` scans of the def, class and comment patterns over the unstripped code; `syntax_valid` is whether the code compiles, nothing else |
| Score.CountedAtMostStarts | scripts/score_checker.py:13-15 | `findall` never finds more matches than there are positions where one can start |
| Score.OnePatternPerPosition | scripts/score_checker.py:13-15 | the def, class and comment patterns never match at the same position |
| Score.LineStartsCount | scripts/score_checker.py:13-15 | a text not ending in `\n` has one line start per `\n`, plus one |
| Score.CountsWithinLines | scripts/score_checker.py:10-15 | for stripped code, `function_count + class_count + comment_count <= line_count` |
| Score.RunScoreChecker | scripts/score_checker.py:36-77 | the score log is the pass's log; no summary is written for a missing file, a line that raised or zero scored scripts |
| Score.CrashIsFinal | scripts/score_checker.py:42-58 | once a line raises, later lines change nothing |
| Score.RunCounts | scripts/score_checker.py:41-58 | at most one score per line, and one log line per score unless a line raised |
| Score.StepLog | scripts/score_checker.py:45-58 | one line appends at most its own sample's log line |
| Score.LoggedScriptsNonEmpty | scripts/score_checker.py:45-58 | every log line scores a sample whose stripped output is non-empty; empty outputs are never scored or logged |
| Score.SummaryBounds | scripts/score_checker.py:60-73 | `total` is the number of scored scripts, and the syntactically valid count is at most `total` |
| Evaluator.EvaluateScript | scripts/evaluator.py:7-38 | `success` exactly when the process exits with 0; a timeout gives the fixed message; any other error gives `Unexpected error: …` |
| Generator.Prompt | scripts/generator.py:38-42 | the fixed header, then `# Task: `, the instruction, `# Details: `, the input and a blank line |
| Generator.DropPrefix | scripts/generator.py:46 | `generated[len(prompt):]` is the text after its first `len(prompt)` characters, and empty when the text is shorter than the prompt |
| Generator.Unfence | scripts/generator.py:49-51 | the fenced branch never lengthens the text and leaves nothing to strip |
| Generator.Cleanup | scripts/generator.py:46-52 | the result is never longer than its input and is stripped; a text not opening with three backticks after stripping is only stripped, one that does goes through the fenced branch |
| Generator.GenerateScript | scripts/generator.py:37-52 | the script is stripped, never longer than the generated text minus the prompt's length, empty when the model returns no more than the prompt's length, and is the cleanup of what follows the first `len(prompt)` characters |
| Generator.StripFence | scripts/generator.py:50 | stripping the backticks of a three-backtick fence leaves what is inside it |
| Generator.ReplaceOpeningPython | scripts/generator.py:51 | in a text that opens with `python`, the first `python` removed is that opening tag |
| Generator.StripNewlines | scripts/generator.py:51 | stripping the line breaks around stripped code gives the code |
| Generator.CleanupOfFencedBlock | scripts/generator.py:46-52 | a `python`-fenced block of stripped code with no backtick at either end cleans up to the code inside the fence |
| Generator.GenerateScriptOfFencedEcho | scripts/generator.py:37-52 | when the model echoes the prompt and then writes a `python`-fenced block, the script is the code in the block |
| Generator.StrippedScript | scripts/loop.py:69 | the extra `.strip()` the loops apply leaves the script unchanged |
| Generator.CleanupOfEcho | scripts/generator.py:46 | when the model echoes the prompt, only the continuation is cleaned up |
| Generator.PendingLinesExact | scripts/generator.py:25-29 | exactly the raw lines containing `"output": ""` are kept |
| Generator.LoadDataset | scripts/generator.py:23-29 | the kept lines are parsed in order, one record each; a kept line that fails to parse raises |
| AutoLoop.AfterAttempt | scripts/auto_loop.py:44-45 | `sample["output"]` takes the new script as soon as one is generated |
| AutoLoop.AcceptedIff | scripts/auto_loop.py:48-74 | an attempt is accepted exactly when it passes, in order: run success, semantic gate, score present, syntax ≥ 70, lines ≤ 100, lines ≥ 3 with a function, at most 20 `#` |
| AutoLoop.StrictAcceptedIff | scripts/auto_loop.py:44-74 | with the source's cleanup and strict gate, the semantic check is the `Compatible` predicate of the cleaned-up script |
| AutoLoop.OutcomeIgnoresOutput | scripts/auto_loop.py:43-84 | only the instruction and input of the sample decide an attempt; the previous output does not |
| AutoLoop.ProcessBounded | scripts/auto_loop.py:38-41 | from retry 0 the model is called at most 3 times; at or past the limit the result is False with no call; a sample without instruction or input fails unchanged |
| AutoLoop.ProcessAccepted | scripts/auto_loop.py:38-84 | True means some attempt within the limit passed every check and the sample returned carries that attempt's script; that attempt is the last one made and every earlier one failed a check; and the call returns True whenever some attempt within the limit would pass |
| AutoLoop.AcceptedLast | scripts/auto_loop.py:76-84 | on success at least one call was made, the last attempt made is the accepted one, and every earlier attempt failed a check |
| AutoLoop.AcceptedSucceeds | scripts/auto_loop.py:38-84 | if any attempt from `retry` up to the limit would pass every check, the call returns True |
| AutoLoop.ProcessUnscripted | scripts/auto_loop.py:44-45 | when no attempt gets as far as a script, the sample comes back unchanged |
| AutoLoop.ProcessKeepsLatest | scripts/auto_loop.py:44-45 | the output is the script of the latest attempt that produced one, and unchanged if none did |
| AutoLoop.ProcessSample | scripts/auto_loop.py:38-84 | the loop computes the recursion's result; on success the sample is appended once to the generated file and once to the final dataset, and on failure nothing is written |
| AutoLoop.WithId | scripts/auto_loop.py:99-100 | an id is assigned only when missing, and nothing else changes |
| AutoLoop.SavedOfSound | scripts/auto_loop.py:96-103 | at most one saved sample per task, each from a successful result |
| AutoLoop.SavedOfComplete | scripts/auto_loop.py:101-102 | the sample of every successful result is saved |
| AutoLoop.SavedAccepted | scripts/auto_loop.py:96-106 | every saved sample is a task, given an id if needed, carrying a script that passed every check; `success <= total`; and every task with an attempt that would pass is saved |
| AutoLoop.RunAll | scripts/auto_loop.py:96-103 | the task loop: `success` is the number of saved samples, and each saved sample is appended, in task order, to both output files |
| AutoLoop.RunTasks | scripts/auto_loop.py:86-106 | a missing dataset does nothing; `total` is the number of tasks and `success` the number saved; the saved samples are appended, in order, to both files |
| AutoLoop.AutoLoopMain | scripts/auto_loop.py:86-106 | `RunTasks` with the source's cleanup and strict gate |
| Loop.LoadExistingIds | scripts/loop.py:28-37 | a missing file gives no ids; otherwise an id is collected exactly when some parsable line records it |
| Loop.IdsInMeaning | scripts/loop.py:45 | the id set is the set of ids recorded in the generated file, read once |
| Loop.ErrorRecord | scripts/loop.py:105-110 | the error record has exactly `instruction`, `input`, `generated`, `error` |
| Loop.HandleRoutes | scripts/loop.py:64-110 | a known id is skipped without a write; a script is JSON-like exactly when it opens with `{` or `[`, and too short exactly when it is not JSON-like and has fewer than two lines, neither being run; success exactly on exit code 0 after both filters; a failure is a syntax failure exactly when stderr contains `SyntaxError`, and another failure exactly when it does not |
| Loop.FiltersNeverRun | scripts/loop.py:73-85 | a JSON-like or too-short script is routed the same whatever running it would do |
| Loop.TallyInvariant | scripts/loop.py:48-115 | `fail_count == syntax + other`, and each non-skipped task increments exactly one of success/json/short/syntax/other |
| Loop.Samples | scripts/loop.py:51-57 | every task gets an id, added only when missing |
| Loop.HandledStep | scripts/loop.py:61-115 | one more task adds its route to the counters and its write, if any, last |
| Loop.ApplyWritesElsewhere | scripts/loop.py:22-25 | appends to other files leave a file as it was |
| Loop.LoopTouchesOnlyPartitions | scripts/loop.py:73-110 | only the generated, non-Python, too-short and errors files are appended to; the dataset and every other file are untouched |
| Loop.OnlyOtherFailures | scripts/loop.py:112-115 | tasks that only raise write nothing and count as other failures |
| Loop.AllRaisedWritesNothing | scripts/loop.py:69 | when every generation raises, nothing is written and `fail == other ==` the number of tasks not skipped |
| Loop.HandleTasks | scripts/loop.py:59-115 | the per-task loop: the counters are the tally of the routes, and the files gain every write of every task, in order |
| Loop.RunLoop | scripts/loop.py:40-121 | a missing or unparsable dataset raises before any write; otherwise the counters are the tally of the routes and the files are the old ones plus every write in task order |
| Loop.MainLoop | scripts/loop.py:40-121 | `RunLoop` with the source's cleanup |
| Dedup.Key | scripts/deduplicate_generated.py:21 | the key is `instruction + input + output`, missing fields read as "" |
| Dedup.CountsAddUp | scripts/deduplicate_generated.py:16-28 | `total == unique + duplicates + unparsable lines` |
| Dedup.UniqueFromFirsts | scripts/deduplicate_generated.py:22-24 | every kept record is the first parsable line of its key |
| Dedup.UniqueKeys | scripts/deduplicate_generated.py:22-24 | the kept keys are exactly the keys of the parsable lines |
| Dedup.UniqueKeysDistinct | scripts/deduplicate_generated.py:22-26 | no two kept records share a key |
| Dedup.UniqueOfDistinct | scripts/deduplicate_generated.py:22-26 | a file whose keys are distinct is kept whole, with zero duplicates |
| Dedup.DedupIdempotent | scripts/deduplicate_generated.py:22-33 | rerunning on the rewritten file keeps it and removes zero duplicates |
| Dedup.DedupLines | scripts/deduplicate_generated.py:16-28 | the `seen`-set loop keeps the first-of-key records and counts duplicates; `total` counts every line |
| Dedup.RemoveDuplicatesFromGenerated | scripts/deduplicate_generated.py:6-38 | a missing file is left alone; otherwise it is overwritten with the kept records, and unparsable lines are dropped |
| Feedback.TaskKey | scripts/extract_failed_to_dataset.py:21 | the key is `instruction + input`, missing fields read as "" |
| Feedback.Requeued | scripts/extract_failed_to_dataset.py:44-48 | a re-queued task has exactly `instruction`, `input` and an empty `output`, keeping its key |
| Feedback.NewTasksSound | scripts/extract_failed_to_dataset.py:33-51 | every re-queued task comes from a complete failed record; none has a dataset key; no two share a key |
| Feedback.NewTasksKeys | scripts/extract_failed_to_dataset.py:33-51 | the re-queued keys are exactly the keys of complete failed records not in the dataset |
| Feedback.ReadDatasetKeys | scripts/extract_failed_to_dataset.py:14-23 | `existing_keys` is the set of keys of the dataset lines that parse |
| Feedback.CollectNewTasks | scripts/extract_failed_to_dataset.py:15-51 | the two loops compute the re-queued tasks in failed-file order, and `count` is their number |
| Feedback.ExtractFailedToDataset | scripts/extract_failed_to_dataset.py:9-64 | a missing failed file writes nothing; no new task writes nothing; otherwise the tasks are appended to the dataset |
| Har.Entries | scripts/parser_har.py:9 | a missing `log` or `entries` gives no entries |
| Har.PostText | scripts/parser_har.py:17 | a missing `postData` or `text` gives "" |
| Har.Position | scripts/parser_har.py:16 | the first header with a given name |
| Har.InsertCases | scripts/parser_har.py:16 | a dict assignment replaces the value of an existing name in place, or appends a new name |
| Har.HeaderMapNames | scripts/parser_har.py:16 | the header dict holds each header name exactly once, and no other name |
| Har.HeaderMapLastValue | scripts/parser_har.py:16 | each name carries the value of its last header |
| Har.HeaderMapOrder | scripts/parser_har.py:16 | the names keep the order of their first headers |
| Har.HeaderSection | scripts/parser_har.py:21 | no headers render as the empty text, and a single header as its own `name: value` line |
| Har.HeaderSectionLines | scripts/parser_har.py:21 | read back with `splitlines()`, the header section is one `name: value` line per header, in order, when no name or value holds a line boundary |
| Har.InputText | scripts/parser_har.py:20-23 | the input starts with `[method] url`, a newline, `Headers:` and a newline, followed by the header lines; the body section follows exactly when the post text is non-empty |
| Har.Task | scripts/parser_har.py:13-30 | the task has exactly `id`, `instruction`, `input`, `output`: a fresh id, the fixed instruction and an empty output; its input is the request's `InputText`, with the method defaulting to `GET`, the url to "", and the header dict and post text of the request |
| Har.EntryTask | scripts/parser_har.py:12-30 | the loop body builds exactly the task of its entry |
| Har.ParseHarFile | scripts/parser_har.py:5-33 | one task per entry, in entry order |
| Store.Get | scripts/deduplicate_generated.py:21 | `rec.get(key, "")` |
| Store.Records | scripts/auto_loop.py:94 | all lines parsed, in order |
| Store.ReadBackWritten | scripts/deduplicate_generated.py:31-33 | re-reading written records gives them back |
| Store.AppendedTwice | scripts/auto_loop.py:78-79 | two appends to one file are one append of both batches |
| Store.AppendedBothStep | scripts/auto_loop.py:98-103 | one more saved sample extends the batch in both output files |
| Store.FileSystem.Append | scripts/auto_loop.py:25-28 | one line is appended, and the file is created if absent |
| Store.FileSystem.AppendAll | scripts/parser_har.py:35-39 | records are appended in order |
| Store.FileSystem.Overwrite | scripts/deduplicate_generated.py:31-33 | the file holds exactly the records; no other file changes |

## Left out

- File I/O is reduced to whole-line reads and writes. Not modelled:
  - opening, directory creation and encodings;
  - the JSON text encoding (`json.dumps` is taken to round-trip);
  - JSON values that are not strings;
  - a HAR archive file `json.load` cannot read.
- Logging, timestamps, `print` and `time.sleep` are side effects only and are not modelled.
- The language model, `load_model`, sampling and `scripts/download_model.py` are foreign and nondeterministic. The generated text is an input.
- `scripts/evaluator.py` is not modelled beyond how it maps the subprocess's end to a result. Left out:
  - the temporary file;
  - spawning `python`;
  - the 10-second timeout;
  - removing the file.
- `compile` is an oracle (`compiles`), and the script is never run.
- `variable_count` and `hardcoded_values` in `analyze_code` are not modelled. Their regexes have no consumer in the pipeline.
- Float averages, `round` and the percentage in the score summary are not modelled. The summary keeps integer sums and counts instead.
- AutoLoop.Checks: `syntax_valid_percent` is compared as an exact real against 70, so float rounding is not modelled.
- `compute_score` is not defined in `scripts/score_checker.py`, so the import in `scripts/auto_loop.py` fails as written. Its report is an input (`ScoreReport`); `None` stands for a scorer that raises.
- `uuid.uuid4()` is not modelled: each call site takes a fresh-id function, indexed by task or entry.
- `scripts/loop.py` unpacks `load_model()` into two values at line 43, outside the `try`, and later calls `generate_script` with the wrong arguments. The model does not reproduce the unpacking; Loop.RunLoop takes the generation of each task as an input. Whether the unpacking itself raises depends on what `transformers` returns, and `transformers` is not part of this model, so both outcomes are possible: if it raises, `main_loop` stops before `load_existing_ids` and before any file is read or written, which leaves the files as Loop.RunLoop's `None` outcome does but is not one of the causes its contract lists; if it does not, every `generate_script` call raises inside the `try`, and Loop.AllRaisedWritesNothing states that the loop then writes nothing and counts every task that is not skipped as an other failure.
- `scripts/loop.py` imports `scripts.semantic_checker_automation` from a path where the file is not. Import paths are not modelled.
- Also not modelled: the `__main__` orchestration of `scripts/loop.py`, `save_outputs`, and the `__main__` loop of `scripts/generator.py`. The calls that run at import time in `data/semantic_checker.py` and `semantic_checker_automation.py` are left out too.
- Text.Lower: only ASCII letters are lower-cased; Python's full Unicode case mapping is not modelled.
- Text.IsWordChar: `\w` is ASCII letters, digits and `_`; Unicode word characters are not modelled.
- Har.Task: a header object without `name` or `value` makes the source raise `KeyError`; the model's headers always carry both.
- AutoLoop.ProcessSample requires the sample to have an `id`. Every log line of `process_sample` reads `sample['id']`, and `main` always assigns one.
- The `[:8]` id prefix in log lines is not modelled, since the log is not modelled.
