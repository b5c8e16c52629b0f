/** The deduplicator of scripts/deduplicate_generated.py: it rewrites the
    generated file keeping, in order, the first record of each
    `instruction + input + output` key, and drops the lines that do not parse. */
module Dedup {
  import opened Wrappers
  import opened Store

  const GeneratedPath := "data/generated.jsonl"

  /** The duplicate key: the three fields concatenated, a missing one read as "". */
  function Key(rec: Record): (k: string)
    ensures |k| == |Get(rec, "instruction")| + |Get(rec, "input")| + |Get(rec, "output")|
    ensures k[..|Get(rec, "instruction")|] == Get(rec, "instruction")
  {
    Get(rec, "instruction") + Get(rec, "input") + Get(rec, "output")
  }

  /** The keys of the lines that parse. */
  function ParsedKeys(lines: seq<Line>): set<string> {
    set k | 0 <= k < |lines| && lines[k].Parsed? :: Key(lines[k].rec)
  }

  /** The keys of a sequence of records. */
  function KeysOf(recs: seq<Record>): set<string> {
    set j | 0 <= j < |recs| :: Key(recs[j])
  }

  /** Line `k` parses and no earlier line that parses has its key. */
  predicate FirstOfKey(lines: seq<Line>, k: int)
    requires 0 <= k < |lines|
  {
    lines[k].Parsed? && Key(lines[k].rec) !in ParsedKeys(lines[..k])
  }

  /** The records kept: those of the lines that are first of their key, in order. */
  function Unique(lines: seq<Line>): seq<Record>
    decreases |lines|
  {
    if lines == [] then []
    else
      var n := |lines| - 1;
      if FirstOfKey(lines, n) then Unique(lines[..n]) + [lines[n].rec] else Unique(lines[..n])
  }

  /** The lines that parse but repeat an earlier key. */
  function Duplicates(lines: seq<Line>): nat
    decreases |lines|
  {
    if lines == [] then 0
    else
      var n := |lines| - 1;
      Duplicates(lines[..n]) + if lines[n].Parsed? && !FirstOfKey(lines, n) then 1 else 0
  }

  /** The lines that do not parse. */
  function MalformedCount(lines: seq<Line>): nat
    decreases |lines|
  {
    if lines == [] then 0
    else
      var n := |lines| - 1;
      MalformedCount(lines[..n]) + if lines[n].Malformed? then 1 else 0
  }

  lemma ParsedKeysSnoc(lines: seq<Line>, line: Line)
    ensures ParsedKeys(lines + [line]) == ParsedKeys(lines) + (if line.Parsed? then {Key(line.rec)} else {})
  {
    var all := lines + [line];
    forall key | key in ParsedKeys(all)
      ensures key in ParsedKeys(lines) + (if line.Parsed? then {Key(line.rec)} else {})
    {
      var k :| 0 <= k < |all| && all[k].Parsed? && Key(all[k].rec) == key;
      if k < |lines| {
        assert all[k] == lines[k];
      }
    }
    forall key | key in ParsedKeys(lines)
      ensures key in ParsedKeys(all)
    {
      var k :| 0 <= k < |lines| && lines[k].Parsed? && Key(lines[k].rec) == key;
      assert all[k] == lines[k];
    }
    if line.Parsed? {
      assert all[|lines|] == line;
    }
  }

  /** Every line is counted exactly once: kept, a duplicate, or malformed. */
  lemma {:induction false} CountsAddUp(lines: seq<Line>)
    ensures |lines| == |Unique(lines)| + Duplicates(lines) + MalformedCount(lines)
    decreases |lines|
  {
    if lines != [] {
      CountsAddUp(lines[..|lines| - 1]);
    }
  }

  /** `rec` is the record of a line of `lines` that is first of its key. */
  predicate FromFirst(lines: seq<Line>, rec: Record) {
    exists k :: 0 <= k < |lines| && FirstOfKey(lines, k) && lines[k].rec == rec
  }

  /** A line first of its key in a prefix stays first of its key. */
  lemma FromFirstExtends(lines: seq<Line>, n: nat, rec: Record)
    requires n <= |lines| && FromFirst(lines[..n], rec)
    ensures FromFirst(lines, rec)
  {
    var init := lines[..n];
    var k :| 0 <= k < n && FirstOfKey(init, k) && init[k].rec == rec;
    assert lines[..k] == init[..k];
    assert FirstOfKey(lines, k);
  }

  /** Every kept record comes from a line that is the first of its key. */
  lemma {:induction false} UniqueFromFirsts(lines: seq<Line>)
    ensures forall j :: 0 <= j < |Unique(lines)| ==> FromFirst(lines, Unique(lines)[j])
    decreases |lines|
  {
    if lines != [] {
      var n := |lines| - 1;
      var init := lines[..n];
      UniqueFromFirsts(init);
      var u := Unique(init);
      forall j | 0 <= j < |u| ensures FromFirst(lines, u[j]) {
        FromFirstExtends(lines, n, u[j]);
      }
      if FirstOfKey(lines, n) {
        assert Unique(lines) == u + [lines[n].rec];
        assert FromFirst(lines, lines[n].rec);
      } else {
        assert Unique(lines) == u;
      }
    } else {
      assert Unique(lines) == [];
    }
  }

  lemma KeysOfSnoc(recs: seq<Record>, rec: Record)
    ensures KeysOf(recs + [rec]) == KeysOf(recs) + {Key(rec)}
  {
    var all := recs + [rec];
    forall key | key in KeysOf(all) ensures key in KeysOf(recs) + {Key(rec)} {
      var j :| 0 <= j < |all| && Key(all[j]) == key;
      if j < |recs| { assert all[j] == recs[j]; }
    }
    forall key | key in KeysOf(recs) ensures key in KeysOf(all) {
      var j :| 0 <= j < |recs| && Key(recs[j]) == key;
      assert all[j] == recs[j];
    }
    assert all[|recs|] == rec;
  }

  /** The keys kept are exactly the keys of the lines that parse. */
  lemma {:induction false} UniqueKeys(lines: seq<Line>)
    ensures KeysOf(Unique(lines)) == ParsedKeys(lines)
    decreases |lines|
  {
    if lines != [] {
      var n := |lines| - 1;
      var init := lines[..n];
      var last := lines[n];
      UniqueKeys(init);
      assert init + [last] == lines;
      ParsedKeysSnoc(init, last);
      if FirstOfKey(lines, n) {
        assert Unique(lines) == Unique(init) + [last.rec];
        KeysOfSnoc(Unique(init), last.rec);
      } else {
        assert Unique(lines) == Unique(init);
        if last.Parsed? {
          assert Key(last.rec) in ParsedKeys(init);
        }
      }
    }
  }

  /** No two kept records share a key. */
  lemma {:induction false} UniqueKeysDistinct(lines: seq<Line>)
    ensures forall i, j :: 0 <= i < j < |Unique(lines)| ==> Key(Unique(lines)[i]) != Key(Unique(lines)[j])
    decreases |lines|
  {
    if lines != [] {
      var n := |lines| - 1;
      var init := lines[..n];
      UniqueKeysDistinct(init);
      if FirstOfKey(lines, n) {
        UniqueKeys(init);
        assert lines[..n] == init;
        var u := Unique(init);
        forall i | 0 <= i < |u| ensures Key(u[i]) != Key(lines[n].rec) {
          assert Key(u[i]) in KeysOf(u);
        }
      }
    }
  }

  /** The distinct-key records of a file, as lines. */
  lemma {:induction false} UniqueOfDistinct(recs: seq<Record>)
    requires forall i, j :: 0 <= i < j < |recs| ==> Key(recs[i]) != Key(recs[j])
    ensures Unique(AsLines(recs)) == recs
    ensures Duplicates(AsLines(recs)) == 0
    decreases |recs|
  {
    if recs != [] {
      var n := |recs| - 1;
      var lines := AsLines(recs);
      assert lines[..n] == AsLines(recs[..n]);
      UniqueOfDistinct(recs[..n]);
      forall k | 0 <= k < n
        ensures Key(lines[..n][k].rec) != Key(recs[n])
      {
        assert lines[..n][k].rec == recs[k];
      }
      assert FirstOfKey(lines, n);
      assert recs[..n] + [recs[n]] == recs;
    }
  }

  /** Running the deduplicator on its own output keeps every record and
      finds no duplicate. */
  lemma DedupIdempotent(lines: seq<Line>)
    ensures Unique(AsLines(Unique(lines))) == Unique(lines)
    ensures Duplicates(AsLines(Unique(lines))) == 0
  {
    UniqueKeysDistinct(lines);
    UniqueOfDistinct(Unique(lines));
  }

  /** The reading loop of `remove_duplicates_from_generated`: `seen` grows
      with the keys met, and `total` counts every line read. */
  method DedupLines(lines: seq<Line>) returns (unique: seq<Record>, total: nat, duplicates: nat)
    ensures unique == Unique(lines)
    ensures duplicates == Duplicates(lines)
    ensures total == |lines| == |unique| + duplicates + MalformedCount(lines)
  {
    var seen: set<string> := {};
    unique := [];
    total := 0;
    duplicates := 0;
    var i := 0;
    while i < |lines|
      invariant 0 <= i <= |lines|
      invariant total == i
      invariant seen == ParsedKeys(lines[..i])
      invariant unique == Unique(lines[..i])
      invariant duplicates == Duplicates(lines[..i])
    {
      var line := lines[i];
      assert lines[..i + 1][..i] == lines[..i];
      assert lines[..i + 1] == lines[..i] + [line];
      ParsedKeysSnoc(lines[..i], line);
      total := total + 1;
      if line.Parsed? {
        var key := Key(line.rec);
        if key !in seen {
          seen := seen + {key};
          unique := unique + [line.rec];
        } else {
          duplicates := duplicates + 1;
        }
      }
      i := i + 1;
    }
    assert lines[..i] == lines;
    CountsAddUp(lines);
  }

  /** The counts printed at the end. */
  datatype Report = Report(total: nat, unique: nat, duplicates: nat)

  /** `remove_duplicates_from_generated()`: `None` when the generated file
      does not exist, which is then left as it is. */
  method RemoveDuplicatesFromGenerated(fs: FileSystem) returns (report: Option<Report>)
    modifies fs
    ensures GeneratedPath !in old(fs.files) ==> report.None? && fs.files == old(fs.files)
    ensures GeneratedPath in old(fs.files) ==>
      var lines := old(fs.files)[GeneratedPath];
      && fs.files == old(fs.files)[GeneratedPath := AsLines(Unique(lines))]
      && report == Some(Report(|lines|, |Unique(lines)|, Duplicates(lines)))
  {
    if GeneratedPath !in fs.files {
      return None;
    }
    var unique, total, duplicates := DedupLines(fs.files[GeneratedPath]);
    fs.Overwrite(GeneratedPath, unique);
    report := Some(Report(total, |unique|, duplicates));
  }
}
