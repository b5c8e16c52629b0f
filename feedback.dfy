/** The feedback step of scripts/extract_failed_to_dataset.py: records of
    the errors file go back to the raw dataset as pending tasks (`output`
    cleared), unless they are incomplete or their `instruction + input` key
    is already there or was already re-queued. */
module Feedback {
  import opened Store

  const FailedPath := "data/failed_outputs/errors.jsonl"
  const RawDatasetPath := "data/dataset.jsonl"

  /** The task key: instruction and input concatenated, a missing one read as "". */
  function TaskKey(rec: Record): (k: string)
    ensures |k| == |Get(rec, "instruction")| + |Get(rec, "input")|
  {
    Get(rec, "instruction") + Get(rec, "input")
  }

  /** The keys of the dataset lines that parse. */
  function DatasetKeys(lines: seq<Line>): set<string> {
    set k | 0 <= k < |lines| && lines[k].Parsed? :: TaskKey(lines[k].rec)
  }

  /** The keys of a sequence of records. */
  function KeysOf(recs: seq<Record>): set<string> {
    set j | 0 <= j < |recs| :: TaskKey(recs[j])
  }

  /** A failed record with both an instruction and an input. */
  predicate Complete(rec: Record) {
    Get(rec, "instruction") != "" && Get(rec, "input") != ""
  }

  /** The pending task made from a failed record: its error and generated
      text are dropped and its output is empty. */
  function Requeued(rec: Record): (task: Record)
    ensures task.Keys == {"instruction", "input", "output"}
    ensures task["instruction"] == Get(rec, "instruction") && task["input"] == Get(rec, "input")
    ensures task["output"] == ""
    ensures TaskKey(task) == TaskKey(rec)
  {
    map["instruction" := Get(rec, "instruction"), "input" := Get(rec, "input"), "output" := ""]
  }

  /** The tasks re-queued from the failed lines, in their order, given the
      keys already in the dataset. */
  function NewTasks(failed: seq<Line>, existing: set<string>): seq<Record>
    decreases |failed|
  {
    if failed == [] then []
    else
      var n := |failed| - 1;
      var prev := NewTasks(failed[..n], existing);
      var line := failed[n];
      if line.Parsed? && Complete(line.rec) && TaskKey(line.rec) !in existing + KeysOf(prev)
      then prev + [Requeued(line.rec)]
      else prev
  }

  lemma KeysOfSnoc(recs: seq<Record>, rec: Record)
    ensures KeysOf(recs + [rec]) == KeysOf(recs) + {TaskKey(rec)}
  {
    var all := recs + [rec];
    forall key | key in KeysOf(all) ensures key in KeysOf(recs) + {TaskKey(rec)} {
      var j :| 0 <= j < |all| && TaskKey(all[j]) == key;
      if j < |recs| { assert all[j] == recs[j]; }
    }
    forall key | key in KeysOf(recs) ensures key in KeysOf(all) {
      var j :| 0 <= j < |recs| && TaskKey(recs[j]) == key;
      assert all[j] == recs[j];
    }
    assert all[|recs|] == rec;
  }

  /** `task` is the re-queued form of a complete record of `failed`. */
  predicate FromFailed(failed: seq<Line>, task: Record) {
    exists k :: 0 <= k < |failed| && failed[k].Parsed? && Complete(failed[k].rec) && task == Requeued(failed[k].rec)
  }

  /** `key` is the key of a complete record of `failed`. */
  predicate CompleteKey(failed: seq<Line>, key: string) {
    exists k :: 0 <= k < |failed| && failed[k].Parsed? && Complete(failed[k].rec) && TaskKey(failed[k].rec) == key
  }

  lemma FromFailedSnoc(init: seq<Line>, line: Line, task: Record)
    ensures FromFailed(init + [line], task) <==>
      FromFailed(init, task) || (line.Parsed? && Complete(line.rec) && task == Requeued(line.rec))
  {
    var all := init + [line];
    if FromFailed(all, task) {
      var k :| 0 <= k < |all| && all[k].Parsed? && Complete(all[k].rec) && task == Requeued(all[k].rec);
      if k < |init| { assert init[k] == all[k]; }
    }
    if FromFailed(init, task) {
      var k :| 0 <= k < |init| && init[k].Parsed? && Complete(init[k].rec) && task == Requeued(init[k].rec);
      assert all[k] == init[k];
    }
    assert all[|init|] == line;
  }

  lemma CompleteKeySnoc(init: seq<Line>, line: Line, key: string)
    ensures CompleteKey(init + [line], key) <==>
      CompleteKey(init, key) || (line.Parsed? && Complete(line.rec) && TaskKey(line.rec) == key)
  {
    var all := init + [line];
    if CompleteKey(all, key) {
      var k :| 0 <= k < |all| && all[k].Parsed? && Complete(all[k].rec) && TaskKey(all[k].rec) == key;
      if k < |init| { assert init[k] == all[k]; }
    }
    if CompleteKey(init, key) {
      var k :| 0 <= k < |init| && init[k].Parsed? && Complete(init[k].rec) && TaskKey(init[k].rec) == key;
      assert all[k] == init[k];
    }
    assert all[|init|] == line;
  }

  /** Every task of `tasks` is the re-queued form of a complete record of
      `failed` whose key is not in `existing`, and no two share a key. */
  predicate SoundTasks(tasks: seq<Record>, failed: seq<Line>, existing: set<string>) {
    && (forall j :: 0 <= j < |tasks| ==> FromFailed(failed, tasks[j]) && TaskKey(tasks[j]) !in existing)
    && (forall i, j :: 0 <= i < j < |tasks| ==> TaskKey(tasks[i]) != TaskKey(tasks[j]))
  }

  /** Every re-queued task is a complete record of the failed file with its
      output cleared (so it has exactly `instruction`, `input` and an empty
      `output`); no re-queued task has a dataset key, and no two share a key. */
  lemma {:induction false} NewTasksSound(failed: seq<Line>, existing: set<string>)
    ensures SoundTasks(NewTasks(failed, existing), failed, existing)
    decreases |failed|
  {
    if failed != [] {
      var n := |failed| - 1;
      var init := failed[..n];
      var line := failed[n];
      var prev := NewTasks(init, existing);
      NewTasksSound(init, existing);
      assert init + [line] == failed;
      SoundExtend(prev, init, line, existing);
      if line.Parsed? && Complete(line.rec) && TaskKey(line.rec) !in existing + KeysOf(prev) {
        assert NewTasks(failed, existing) == prev + [Requeued(line.rec)];
        SoundAppend(prev, init + [line], line.rec, existing);
      } else {
        assert NewTasks(failed, existing) == prev;
      }
    } else {
      assert NewTasks(failed, existing) == [];
    }
  }

  /** Tasks sound for a prefix of the failed file are sound for the file. */
  lemma SoundExtend(tasks: seq<Record>, init: seq<Line>, line: Line, existing: set<string>)
    requires SoundTasks(tasks, init, existing)
    ensures SoundTasks(tasks, init + [line], existing)
  {
    forall j | 0 <= j < |tasks| ensures FromFailed(init + [line], tasks[j]) {
      FromFailedSnoc(init, line, tasks[j]);
    }
  }

  /** A complete record of the file whose key is new may be re-queued. */
  lemma SoundAppend(tasks: seq<Record>, failed: seq<Line>, rec: Record, existing: set<string>)
    requires SoundTasks(tasks, failed, existing)
    requires failed != [] && failed[|failed| - 1] == Parsed(rec) && Complete(rec)
    requires TaskKey(rec) !in existing + KeysOf(tasks)
    ensures SoundTasks(tasks + [Requeued(rec)], failed, existing)
  {
    var all := tasks + [Requeued(rec)];
    var n := |tasks|;
    assert FromFailed(failed, Requeued(rec)) by {
      assert failed[|failed| - 1].Parsed?;
    }
    forall j | 0 <= j < |all| ensures FromFailed(failed, all[j]) && TaskKey(all[j]) !in existing {
      if j < n { assert all[j] == tasks[j]; }
    }
    forall i, j | 0 <= i < j < |all| ensures TaskKey(all[i]) != TaskKey(all[j]) {
      assert all[i] == tasks[i];
      if j < n {
        assert all[j] == tasks[j];
      } else {
        assert TaskKey(tasks[i]) in KeysOf(tasks);
      }
    }
  }

  /** The keys re-queued are exactly the keys of the complete failed
      records that are not in the dataset. */
  lemma {:induction false} NewTasksKeys(failed: seq<Line>, existing: set<string>)
    ensures forall key :: key in KeysOf(NewTasks(failed, existing)) <==> key !in existing && CompleteKey(failed, key)
    decreases |failed|
  {
    if failed != [] {
      var n := |failed| - 1;
      var init := failed[..n];
      var line := failed[n];
      var prev := NewTasks(init, existing);
      NewTasksKeys(init, existing);
      assert init + [line] == failed;
      forall key ensures CompleteKey(failed, key) <==>
        CompleteKey(init, key) || (line.Parsed? && Complete(line.rec) && TaskKey(line.rec) == key)
      {
        CompleteKeySnoc(init, line, key);
      }
      if line.Parsed? && Complete(line.rec) && TaskKey(line.rec) !in existing + KeysOf(prev) {
        assert NewTasks(failed, existing) == prev + [Requeued(line.rec)];
        KeysOfSnoc(prev, Requeued(line.rec));
      } else {
        assert NewTasks(failed, existing) == prev;
      }
    } else {
      assert NewTasks(failed, existing) == [];
    }
  }

  lemma DatasetKeysSnoc(lines: seq<Line>, line: Line)
    ensures DatasetKeys(lines + [line]) == DatasetKeys(lines) + (if line.Parsed? then {TaskKey(line.rec)} else {})
  {
    var all := lines + [line];
    forall key | key in DatasetKeys(all)
      ensures key in DatasetKeys(lines) + (if line.Parsed? then {TaskKey(line.rec)} else {})
    {
      var k :| 0 <= k < |all| && all[k].Parsed? && TaskKey(all[k].rec) == key;
      if k < |lines| { assert all[k] == lines[k]; }
    }
    forall key | key in DatasetKeys(lines) ensures key in DatasetKeys(all) {
      var k :| 0 <= k < |lines| && lines[k].Parsed? && TaskKey(lines[k].rec) == key;
      assert all[k] == lines[k];
    }
    if line.Parsed? {
      assert all[|lines|] == line;
    }
  }

  /** The first reading loop of `extract_failed_to_dataset`: the keys of the
      dataset (`raw` has no lines when the dataset does not exist). */
  method ReadDatasetKeys(raw: seq<Line>) returns (existingKeys: set<string>)
    ensures existingKeys == DatasetKeys(raw)
  {
    existingKeys := {};
    var r := 0;
    while r < |raw|
      invariant 0 <= r <= |raw|
      invariant existingKeys == DatasetKeys(raw[..r])
    {
      var line := raw[r];
      if line.Parsed? {
        existingKeys := existingKeys + {TaskKey(line.rec)};
      }
      assert raw[..r + 1] == raw[..r] + [line];
      DatasetKeysSnoc(raw[..r], line);
      r := r + 1;
    }
    assert raw[..r] == raw;
  }

  /** The two reading loops of `extract_failed_to_dataset`: `existing_keys`
      starts as the dataset's keys and grows with every re-queued key, and
      `count` with every re-queued task. */
  method CollectNewTasks(raw: seq<Line>, failed: seq<Line>) returns (newData: seq<Record>, count: nat)
    ensures newData == NewTasks(failed, DatasetKeys(raw))
    ensures count == |newData|
  {
    var existingKeys := ReadDatasetKeys(raw);
    ghost var existing := existingKeys;
    newData := [];
    count := 0;
    var i := 0;
    while i < |failed|
      invariant 0 <= i <= |failed|
      invariant newData == NewTasks(failed[..i], existing)
      invariant existingKeys == existing + KeysOf(newData)
      invariant count == |newData|
    {
      var line := failed[i];
      assert failed[..i + 1][..i] == failed[..i];
      if line.Parsed? {
        var item := line.rec;
        var instruction := Get(item, "instruction");
        var inputText := Get(item, "input");
        var key := instruction + inputText;
        if instruction != "" && inputText != "" && key !in existingKeys {
          var datasetItem := map["instruction" := instruction, "input" := inputText, "output" := ""];
          assert datasetItem == Requeued(item);
          KeysOfSnoc(newData, datasetItem);
          newData := newData + [datasetItem];
          existingKeys := existingKeys + {key};
          count := count + 1;
        }
      }
      i := i + 1;
    }
    assert failed[..i] == failed;
  }

  /** `extract_failed_to_dataset()`; `count` is the number printed. */
  method ExtractFailedToDataset(fs: FileSystem) returns (count: nat)
    modifies fs
    ensures FailedPath !in old(fs.files) ==> count == 0 && fs.files == old(fs.files)
    ensures FailedPath in old(fs.files) ==>
      var tasks := NewTasks(old(fs.files)[FailedPath], DatasetKeys(Contents(old(fs.files), RawDatasetPath)));
      && count == |tasks|
      && (tasks == [] ==> fs.files == old(fs.files))
      && (tasks != [] ==> fs.files == Appended(old(fs.files), RawDatasetPath, tasks))
  {
    if FailedPath !in fs.files {
      return 0;
    }
    var newData;
    newData, count := CollectNewTasks(Contents(fs.files, RawDatasetPath), fs.files[FailedPath]);
    if newData == [] {
      return;
    }
    fs.AppendAll(RawDatasetPath, newData);
  }
}
