/** The batch driver shared by both semantic gates: every line of the
    generated file is parsed, judged, and sent to the accepted list or,
    tagged with `rejected_reason`, to the rejected list. A line that does not
    parse, or a record without `instruction`, `input` or `output`, raises and
    ends the run before anything is written. */
module Batch {
  import opened Store
  import opened Rules

  /** A gate: instruction, input and output to a verdict. */
  type Judge = (string, string, string) -> Verdict

  /** The gate reads `sample["instruction"]`, `sample["input"]` and `sample["output"]`. */
  predicate Judgeable(rec: Record) {
    "instruction" in rec && "input" in rec && "output" in rec
  }

  function Judged(rec: Record, judge: Judge): Verdict
    requires Judgeable(rec)
  {
    judge(rec["instruction"], rec["input"], rec["output"])
  }

  /** Every line parses and carries the fields the gate reads. */
  predicate Readable(lines: seq<Line>) {
    forall k :: 0 <= k < |lines| ==> lines[k].Parsed? && Judgeable(lines[k].rec)
  }

  /** The accepted records, unchanged and in input order. */
  function AcceptedOf(lines: seq<Line>, judge: Judge): seq<Record>
    requires Readable(lines)
    decreases |lines|
  {
    if lines == [] then []
    else
      var last := lines[|lines| - 1].rec;
      AcceptedOf(lines[..|lines| - 1], judge) + (if Judged(last, judge).Pass? then [last] else [])
  }

  /** The rejected records, in input order, each tagged with its reason. */
  function RejectedOf(lines: seq<Line>, judge: Judge): seq<Record>
    requires Readable(lines)
    decreases |lines|
  {
    if lines == [] then []
    else
      var last := lines[|lines| - 1].rec;
      var v := Judged(last, judge);
      RejectedOf(lines[..|lines| - 1], judge) + (if v.Fail? then [last["rejected_reason" := v.reason]] else [])
  }

  /** The loop of `run_semantic_checker` / `run_semantic_checker_automation`:
      `crashed` when a line raises; otherwise the two lists and the number
      of lines read. */
  method Partition(lines: seq<Line>, judge: Judge)
    returns (crashed: bool, accepted: seq<Record>, rejected: seq<Record>, total: nat)
    ensures crashed <==> !Readable(lines)
    ensures !crashed ==> accepted == AcceptedOf(lines, judge) && rejected == RejectedOf(lines, judge)
    ensures !crashed ==> total == |lines| == |accepted| + |rejected|
  {
    accepted, rejected, total := [], [], 0;
    var i := 0;
    while i < |lines|
      invariant 0 <= i <= |lines| && total == i
      invariant Readable(lines[..i])
      invariant accepted == AcceptedOf(lines[..i], judge)
      invariant rejected == RejectedOf(lines[..i], judge)
    {
      total := total + 1;
      var line := lines[i];
      if line.Malformed? || !Judgeable(line.rec) {
        crashed := true;
        return;
      }
      var item := line.rec;
      var verdict := judge(item["instruction"], item["input"], item["output"]);
      assert lines[..i + 1][..i] == lines[..i];
      if verdict.Pass? {
        accepted := accepted + [item];
      } else {
        rejected := rejected + [item["rejected_reason" := verdict.reason]];
      }
      i := i + 1;
    }
    assert lines[..i] == lines;
    crashed := false;
    PartitionSizes(lines, judge);
  }

  /** Each record goes to exactly one of the two lists. */
  lemma {:induction false} PartitionSizes(lines: seq<Line>, judge: Judge)
    requires Readable(lines)
    decreases |lines|
    ensures |AcceptedOf(lines, judge)| + |RejectedOf(lines, judge)| == |lines|
  {
    if lines != [] {
      PartitionSizes(lines[..|lines| - 1], judge);
    }
  }

  /** Accepted records are input records the gate passes, left unchanged;
      rejected records are input records the gate fails, with
      `rejected_reason` set to the gate's reason and nothing else changed. */
  lemma {:induction false} PartitionSound(lines: seq<Line>, judge: Judge)
    requires Readable(lines)
    decreases |lines|
    ensures forall r :: r in AcceptedOf(lines, judge) ==>
      exists k :: 0 <= k < |lines| && Judged(lines[k].rec, judge).Pass? && r == lines[k].rec
    ensures forall r :: r in RejectedOf(lines, judge) ==>
      exists k :: 0 <= k < |lines| && Judged(lines[k].rec, judge).Fail?
                  && r == lines[k].rec["rejected_reason" := Judged(lines[k].rec, judge).reason]
  {
    if lines != [] {
      var init := lines[..|lines| - 1];
      PartitionSound(init, judge);
      forall r | r in AcceptedOf(init, judge)
        ensures exists k :: 0 <= k < |lines| && Judged(lines[k].rec, judge).Pass? && r == lines[k].rec
      {
        var k :| 0 <= k < |init| && Judged(init[k].rec, judge).Pass? && r == init[k].rec;
        assert lines[k] == init[k];
      }
      forall r | r in RejectedOf(init, judge)
        ensures exists k :: 0 <= k < |lines| && Judged(lines[k].rec, judge).Fail?
                            && r == lines[k].rec["rejected_reason" := Judged(lines[k].rec, judge).reason]
      {
        var k :| 0 <= k < |init| && Judged(init[k].rec, judge).Fail?
                 && r == init[k].rec["rejected_reason" := Judged(init[k].rec, judge).reason];
        assert lines[k] == init[k];
      }
    }
  }

  /** No record is lost: each one the gate passes is accepted, and each one
      it fails is rejected with its reason. */
  lemma {:induction false} PartitionComplete(lines: seq<Line>, judge: Judge, k: nat)
    requires Readable(lines) && k < |lines|
    decreases |lines|
    ensures Judged(lines[k].rec, judge).Pass? ==> lines[k].rec in AcceptedOf(lines, judge)
    ensures Judged(lines[k].rec, judge).Fail? ==>
      lines[k].rec["rejected_reason" := Judged(lines[k].rec, judge).reason] in RejectedOf(lines, judge)
  {
    if k < |lines| - 1 {
      var init := lines[..|lines| - 1];
      assert init[k] == lines[k];
      PartitionComplete(init, judge, k);
    }
  }
}
