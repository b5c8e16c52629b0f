/** The HAR-to-task formatter of scripts/parser_har.py: every entry of a
    HAR 1.2 archive (`log.entries[].request`) becomes one pending task whose
    input describes the request line, the headers and the body. Reading the
    archive file is not part of this model: the archive is a value. */
module Har {
  import opened Wrappers
  import opened Text
  import opened Store

  const Instruction := "Buatkan script Python menggunakan modul requests berdasarkan permintaan HTTP berikut."
  const DefaultMethod := "GET"

  /** One `{name, value}` object of `request.headers`. */
  datatype Header = Header(name: string, value: string)

  /** `request.postData`. */
  datatype PostData = PostData(text: Option<string>)

  /** `entry.request`; a field the archive leaves out is `None`. */
  datatype Request = Request(httpMethod: Option<string>, url: Option<string>,
                             headers: Option<seq<Header>>, postData: Option<PostData>)

  datatype Entry = Entry(request: Option<Request>)

  datatype Log = Log(entries: Option<seq<Entry>>)

  /** The archive's top-level object. */
  datatype Archive = Archive(log: Option<Log>)

  /** `har_data.get("log", {}).get("entries", [])` */
  function Entries(har: Archive): (es: seq<Entry>)
    ensures har.log.None? ==> es == []
    ensures har.log.Some? ==> es == har.log.value.entries.GetOr([])
  {
    match har.log
    case None => []
    case Some(log) => log.entries.GetOr([])
  }

  /** `entry.get("request", {})` */
  function RequestOf(entry: Entry): Request {
    entry.request.GetOr(Request(None, None, None, None))
  }

  /** `req.get("postData", {}).get("text", "")` */
  function PostText(req: Request): (t: string)
    ensures req.postData.None? ==> t == ""
    ensures req.postData.Some? ==> t == req.postData.value.text.GetOr("")
  {
    match req.postData
    case None => ""
    case Some(pd) => pd.text.GetOr("")
  }

  /** Index of the first header named `name` in `hs`, or `|hs|` when none is. */
  function Position(hs: seq<Header>, name: string): (i: nat)
    ensures i <= |hs|
    ensures forall j :: 0 <= j < i ==> hs[j].name != name
    ensures i < |hs| ==> hs[i].name == name
  {
    if hs == [] then 0
    else if hs[0].name == name then 0
    else 1 + Position(hs[1..], name)
  }

  /** `d[name] = value` on a dict kept as its items in insertion order: an
      existing name keeps its place and takes the new value, a new name goes last. */
  function Insert(items: seq<Header>, h: Header): seq<Header> {
    var i := Position(items, h.name);
    if i < |items| then items[i := h] else items + [h]
  }

  /** `{h["name"]: h["value"] for h in headers}`, as its items in order. */
  function HeaderMap(hs: seq<Header>): seq<Header>
    decreases |hs|
  {
    if hs == [] then [] else Insert(HeaderMap(hs[..|hs| - 1]), hs[|hs| - 1])
  }

  /** Some header of `hs` is named `name`. */
  predicate Named(hs: seq<Header>, name: string) {
    Position(hs, name) < |hs|
  }

  /** `h` is the last header of `hs` named `h.name`. */
  predicate LastOfName(hs: seq<Header>, h: Header) {
    exists k :: 0 <= k < |hs| && hs[k] == h && forall m :: k < m < |hs| ==> hs[m].name != h.name
  }

  lemma PositionSnoc(hs: seq<Header>, h: Header, name: string)
    ensures Position(hs + [h], name) ==
      if Position(hs, name) < |hs| then Position(hs, name) else if h.name == name then |hs| else |hs| + 1
  {
    var all := hs + [h];
    forall j | 0 <= j < |hs| ensures all[j] == hs[j] { }
    assert all[|hs|] == h;
  }

  lemma LastOfNameSnoc(hs: seq<Header>, h: Header, x: Header)
    requires x.name != h.name
    ensures LastOfName(hs + [h], x) <==> LastOfName(hs, x)
  {
    var all := hs + [h];
    if LastOfName(all, x) {
      var k :| 0 <= k < |all| && all[k] == x && forall m :: k < m < |all| ==> all[m].name != x.name;
      assert k < |hs|;
      assert hs[k] == all[k];
      forall m | k < m < |hs| ensures hs[m].name != x.name { assert hs[m] == all[m]; }
    }
    if LastOfName(hs, x) {
      var k :| 0 <= k < |hs| && hs[k] == x && forall m :: k < m < |hs| ==> hs[m].name != x.name;
      assert all[k] == hs[k];
      forall m | k < m < |all| ensures all[m].name != x.name {
        if m < |hs| { assert all[m] == hs[m]; } else { assert all[m] == h; }
      }
    }
  }

  /** `Insert` replaces the item of an existing name, or appends a new one. */
  lemma InsertCases(items: seq<Header>, h: Header)
    ensures Named(items, h.name) ==> Insert(items, h) == items[Position(items, h.name) := h]
    ensures !Named(items, h.name) ==> Insert(items, h) == items + [h]
    ensures forall name :: Named(Insert(items, h), name) <==> Named(items, name) || name == h.name
  {
    var p := Position(items, h.name);
    var m := Insert(items, h);
    if p < |items| {
      forall name ensures Named(m, name) <==> Named(items, name) {
        if Named(items, name) {
          var q := Position(items, name);
          if q == p { assert m[q] == h; } else { assert m[q] == items[q]; }
        }
        if Named(m, name) {
          var q := Position(m, name);
          if q == p { assert items[q].name == h.name; } else { assert items[q] == m[q]; }
        }
      }
    } else {
      forall name ensures Named(m, name) <==> Named(items, name) || name == h.name {
        PositionSnoc(items, h, name);
      }
    }
  }

  /** The header dict holds each name of `hs` once, and only those. */
  lemma {:induction false} HeaderMapNames(hs: seq<Header>)
    ensures forall i, j :: 0 <= i < j < |HeaderMap(hs)| ==> HeaderMap(hs)[i].name != HeaderMap(hs)[j].name
    ensures forall name :: Named(HeaderMap(hs), name) <==> Named(hs, name)
    decreases |hs|
  {
    if hs == [] {
      assert HeaderMap(hs) == [];
    } else {
      var n := |hs| - 1;
      var init := hs[..n];
      var h := hs[n];
      var prev := HeaderMap(init);
      HeaderMapNames(init);
      assert init + [h] == hs;
      assert HeaderMap(hs) == Insert(prev, h);
      InsertCases(prev, h);
      forall name ensures Named(hs, name) <==> Named(init, name) || name == h.name {
        PositionSnoc(init, h, name);
      }
      if !Named(prev, h.name) {
        forall i | 0 <= i < |prev| ensures prev[i].name != h.name {
          assert Position(prev, prev[i].name) <= i;
        }
      }
    }
  }

  /** Each name of the header dict carries the value of its last header. */
  lemma {:induction false} HeaderMapLastValue(hs: seq<Header>)
    ensures forall i :: 0 <= i < |HeaderMap(hs)| ==> LastOfName(hs, HeaderMap(hs)[i])
    decreases |hs|
  {
    if hs != [] {
      var n := |hs| - 1;
      var init := hs[..n];
      var h := hs[n];
      var prev := HeaderMap(init);
      HeaderMapLastValue(init);
      HeaderMapNames(init);
      assert init + [h] == hs;
      assert HeaderMap(hs) == Insert(prev, h);
      InsertCases(prev, h);
      var m := HeaderMap(hs);
      assert LastOfName(hs, h) by {
        assert hs[n] == h;
      }
      forall i | 0 <= i < |m| ensures LastOfName(hs, m[i]) {
        if m[i] != h {
          assert i < |prev| && m[i] == prev[i];
          LastOfNameSnoc(init, h, m[i]);
        }
      }
    }
  }

  /** The names of `items` come in the order of their first headers in `hs`. */
  predicate OrderedBy(items: seq<Header>, hs: seq<Header>) {
    forall i, j :: 0 <= i < j < |items| ==> Position(hs, items[i].name) < Position(hs, items[j].name)
  }

  /** The items of the header dict follow the first header of each name. */
  lemma {:induction false} HeaderMapOrder(hs: seq<Header>)
    ensures OrderedBy(HeaderMap(hs), hs)
    decreases |hs|
  {
    if hs != [] {
      var n := |hs| - 1;
      var init := hs[..n];
      var h := hs[n];
      var prev := HeaderMap(init);
      HeaderMapOrder(init);
      HeaderMapNames(init);
      assert init + [h] == hs;
      assert HeaderMap(hs) == Insert(prev, h);
      InsertCases(prev, h);
      forall i | 0 <= i < |prev| ensures Named(init, prev[i].name) {
        assert Position(prev, prev[i].name) <= i;
      }
      if !Named(prev, h.name) {
        OrderedSnocNew(prev, init, h);
      } else {
        OrderedReplace(prev, init, h, Position(prev, h.name));
      }
    }
  }

  /** A name new to `hs` goes last, after every earlier name. */
  lemma OrderedSnocNew(prev: seq<Header>, init: seq<Header>, h: Header)
    requires OrderedBy(prev, init) && !Named(init, h.name)
    requires forall i :: 0 <= i < |prev| ==> Named(init, prev[i].name)
    ensures OrderedBy(prev + [h], init + [h])
  {
    var m := prev + [h];
    PositionSnoc(init, h, h.name);
    forall i | 0 <= i < |prev| ensures m[i] == prev[i] && Position(init + [h], prev[i].name) == Position(init, prev[i].name) < |init| {
      PositionSnoc(init, h, prev[i].name);
    }
  }

  /** A name already present keeps its place. */
  lemma OrderedReplace(prev: seq<Header>, init: seq<Header>, h: Header, p: nat)
    requires OrderedBy(prev, init) && p < |prev| && prev[p].name == h.name
    requires forall i :: 0 <= i < |prev| ==> Named(init, prev[i].name)
    ensures OrderedBy(prev[p := h], init + [h])
  {
    var m := prev[p := h];
    forall i | 0 <= i < |m| ensures m[i].name == prev[i].name && Position(init + [h], m[i].name) == Position(init, prev[i].name) {
      PositionSnoc(init, h, prev[i].name);
    }
  }

  /** One header item rendered as a line. */
  function HeaderLine(h: Header): string {
    h.name + ": " + h.value
  }

  /** The request line and the `Headers:` title that start every input. */
  function RequestHead(verb: string, url: string): string {
    "[" + verb + "] " + url + "\nHeaders:\n"
  }

  /** The header section: one `name: value` line per dict item, in order. */
  function HeaderSection(items: seq<Header>): (r: string)
    ensures items == [] ==> r == ""
    ensures |items| == 1 ==> r == HeaderLine(items[0])
  {
    Join(seq(|items|, i requires 0 <= i < |items| => HeaderLine(items[i])), "\n")
  }

  /** Read back with `splitlines()`, the header section is one `name: value`
      line per item, in order, as long as no name or value holds a line boundary. */
  lemma HeaderSectionLines(items: seq<Header>)
    requires forall i :: 0 <= i < |items| ==> OneLine(items[i].name) && OneLine(items[i].value)
    ensures SplitLines(HeaderSection(items)) == seq(|items|, i requires 0 <= i < |items| => HeaderLine(items[i]))
  {
    var lines := seq(|items|, i requires 0 <= i < |items| => HeaderLine(items[i]));
    forall i | 0 <= i < |lines|
      ensures OneLine(lines[i])
    {
      var h := items[i];
      forall j | 0 <= j < |lines[i]|
        ensures !IsLineBreak(lines[i][j])
      {
        if j < |h.name| {
          assert lines[i][j] == h.name[j];
        } else if j >= |h.name| + 2 {
          assert lines[i][j] == h.value[j - |h.name| - 2];
        }
      }
    }
    if lines != [] {
      assert |lines[|lines| - 1]| >= 2;
    }
    SplitLinesOfJoin(lines);
  }

  /** `input_text` of one request: the request head, the header section and,
      when the body is not empty, a blank line, `Body:` and the body. */
  function InputText(verb: string, url: string, items: seq<Header>, post: string): (r: string)
    ensures StartsWith(r, RequestHead(verb, url))
    ensures var h := |RequestHead(verb, url)|;
      && h + |HeaderSection(items)| <= |r|
      && r[h..h + |HeaderSection(items)|] == HeaderSection(items)
      && (post == "" <==> |r| == h + |HeaderSection(items)|)
      && (post != "" ==> r[h + |HeaderSection(items)|..] == "\n\nBody:\n" + post)
  {
    var head := RequestHead(verb, url);
    var text := head + HeaderSection(items);
    assert text[..|head|] == head;
    if post != "" then
      var r := text + ("\n\nBody:\n" + post);
      assert r[..|text|] == text;
      r
    else text
  }

  /** The task made from one entry, with `id` as its fresh id. */
  function Task(entry: Entry, id: string): (r: Record)
    ensures r.Keys == {"id", "instruction", "input", "output"}
    ensures r["id"] == id && r["instruction"] == Instruction && r["output"] == ""
    ensures var req := RequestOf(entry);
      StartsWith(r["input"], RequestHead(req.httpMethod.GetOr(DefaultMethod), req.url.GetOr("")))
    ensures var req := RequestOf(entry);
      r["input"] == InputText(req.httpMethod.GetOr(DefaultMethod), req.url.GetOr(""),
                              HeaderMap(req.headers.GetOr([])), PostText(req))
  {
    var req := RequestOf(entry);
    var input := InputText(req.httpMethod.GetOr(DefaultMethod), req.url.GetOr(""),
                           HeaderMap(req.headers.GetOr([])), PostText(req));
    map["id" := id, "instruction" := Instruction, "input" := input, "output" := ""]
  }

  /** `parse_har_file`: one task per entry, in entry order; `freshIds(k)` is
      the uuid drawn for the `k`-th entry. */
  method ParseHarFile(har: Archive, freshIds: nat -> string) returns (parsed: seq<Record>)
    ensures |parsed| == |Entries(har)|
    ensures forall k :: 0 <= k < |parsed| ==> parsed[k] == Task(Entries(har)[k], freshIds(k))
  {
    var entries := Entries(har);
    parsed := [];
    var k := 0;
    while k < |entries|
      invariant 0 <= k <= |entries|
      invariant parsed == Tasks(entries, freshIds)[..k]
    {
      var data := EntryTask(entries[k], freshIds(k));
      TasksPrefixStep(entries, freshIds, k);
      parsed := parsed + [data];
      k := k + 1;
    }
    assert parsed == Tasks(entries, freshIds);
  }

  /** The task of every entry, in entry order. */
  function Tasks(entries: seq<Entry>, freshIds: nat -> string): (ts: seq<Record>)
    ensures |ts| == |entries|
  {
    seq(|entries|, k requires 0 <= k < |entries| => Task(entries[k], freshIds(k)))
  }

  lemma TasksPrefixStep(entries: seq<Entry>, freshIds: nat -> string, k: nat)
    requires k < |entries|
    ensures Tasks(entries, freshIds)[..k + 1] == Tasks(entries, freshIds)[..k] + [Task(entries[k], freshIds(k))]
  {
    var all := Tasks(entries, freshIds);
    assert all[..k + 1] == all[..k] + [all[k]];
  }

  /** The body of the loop of `parse_har_file`: the task of one entry. */
  method EntryTask(entry: Entry, id: string) returns (data: Record)
    ensures data == Task(entry, id)
  {
    var req := RequestOf(entry);
    var verb := req.httpMethod.GetOr(DefaultMethod);
    var url := req.url.GetOr("");
    var headers := HeaderMap(req.headers.GetOr([]));
    var postData := PostText(req);
    var inputText := "[" + verb + "] " + url + "\nHeaders:\n";
    inputText := inputText + HeaderSection(headers);
    if postData != "" {
      inputText := inputText + "\n\nBody:\n" + postData;
    }
    assert inputText == InputText(verb, url, headers, postData);
    data := map["id" := id, "instruction" := Instruction, "input" := inputText, "output" := ""];
  }
}
