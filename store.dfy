/** The JSON-Lines files the pipeline reads and appends to. A file is a
    sequence of lines; a line is a JSON object with string values, or a line
    that `json.loads` rejects. The file system maps paths to files; a path
    that is absent is a file that does not exist. */
module Store {

  /** A JSON object whose values are strings. */
  type Record = map<string, string>

  datatype Line = Parsed(rec: Record) | Malformed

  /** `rec.get(key, "")` */
  function Get(rec: Record, key: string): (v: string)
    ensures key in rec ==> v == rec[key]
    ensures key !in rec ==> v == ""
  {
    if key in rec then rec[key] else ""
  }

  /** The records of a sequence of lines that all parse. */
  function Records(lines: seq<Line>): (recs: seq<Record>)
    requires forall k :: 0 <= k < |lines| ==> lines[k].Parsed?
    ensures |recs| == |lines|
    ensures forall k :: 0 <= k < |lines| ==> recs[k] == lines[k].rec
  {
    seq(|lines|, k requires 0 <= k < |lines| => lines[k].rec)
  }

  /** The lines written for a sequence of records. */
  function AsLines(recs: seq<Record>): (lines: seq<Line>)
    ensures |lines| == |recs|
    ensures forall k :: 0 <= k < |recs| ==> lines[k] == Parsed(recs[k])
  {
    seq(|recs|, k requires 0 <= k < |recs| => Parsed(recs[k]))
  }

  /** Re-reading written records gives the records back. */
  lemma ReadBackWritten(recs: seq<Record>)
    ensures Records(AsLines(recs)) == recs
  {
  }

  /** The contents of `path` in `files`; an absent file reads as empty. */
  function Contents(files: map<string, seq<Line>>, path: string): seq<Line> {
    if path in files then files[path] else []
  }

  /** The files after appending `recs` to `path` (creating it if absent). */
  function Appended(files: map<string, seq<Line>>, path: string, recs: seq<Record>): map<string, seq<Line>> {
    files[path := Contents(files, path) + AsLines(recs)]
  }

  /** Writing two batches one after the other writes their concatenation. */
  lemma AsLinesConcat(a: seq<Record>, b: seq<Record>)
    ensures AsLines(a + b) == AsLines(a) + AsLines(b)
  {
    assert forall k :: 0 <= k < |a| + |b| ==> AsLines(a + b)[k] == (AsLines(a) + AsLines(b))[k];
  }

  /** Two appends to one path are one append of both batches. */
  lemma AppendedTwice(files: map<string, seq<Line>>, path: string, a: seq<Record>, b: seq<Record>)
    ensures Appended(Appended(files, path, a), path, b) == Appended(files, path, a + b)
  {
    AsLinesConcat(a, b);
    var once := Appended(files, path, a);
    assert Contents(once, path) == Contents(files, path) + AsLines(a);
    assert Contents(files, path) + AsLines(a) + AsLines(b) == Contents(files, path) + AsLines(a + b);
  }

  /** Appends to two different paths do not interfere. */
  lemma AppendedCommute(files: map<string, seq<Line>>, p: string, q: string, a: seq<Record>, b: seq<Record>)
    requires p != q
    ensures Appended(Appended(files, p, a), q, b) == Appended(Appended(files, q, b), p, a)
  {
  }

  /** One more record appended to two different files, each already holding
      the same batch, extends both batches. */
  lemma AppendedBothStep(files: map<string, seq<Line>>, p: string, q: string, recs: seq<Record>, rec: Record)
    requires p != q
    ensures Appended(Appended(Appended(Appended(files, p, recs), q, recs), p, [rec]), q, [rec])
            == Appended(Appended(files, p, recs + [rec]), q, recs + [rec])
  {
    var once := Appended(files, p, recs);
    AppendedCommute(once, q, p, recs, [rec]);
    AppendedTwice(files, p, recs, [rec]);
    AppendedTwice(Appended(files, p, recs + [rec]), q, recs, [rec]);
  }

  /** The working directory's files. */
  class FileSystem {
    var files: map<string, seq<Line>>

    constructor (initial: map<string, seq<Line>>)
      ensures files == initial
    {
      files := initial;
    }

    /** `save_jsonl_line(path, item)`: one line appended, the file created if absent. */
    method Append(path: string, rec: Record)
      modifies this
      ensures files == Appended(old(files), path, [rec])
    {
      assert AsLines([rec]) == [Parsed(rec)];
      files := files[path := Contents(files, path) + [Parsed(rec)]];
    }

    /** A file opened with mode `"a"` and written record by record. */
    method AppendAll(path: string, recs: seq<Record>)
      modifies this
      ensures files == Appended(old(files), path, recs)
    {
      files := files[path := Contents(files, path) + AsLines(recs)];
    }

    /** A file opened with mode `"w"` and written record by record. */
    method Overwrite(path: string, recs: seq<Record>)
      modifies this
      ensures files == old(files)[path := AsLines(recs)]
    {
      files := files[path := AsLines(recs)];
    }
  }
}
