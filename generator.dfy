/** The text side of scripts/generator.py: the prompt given to the model,
    the cleanup of what the model returns, and the filter that picks the
    pending tasks out of the raw dataset. The model itself is not modelled:
    the text it generates is an input. */
module Generator {
  import opened Wrappers
  import opened Text
  import opened Store

  const Header := "# Instruction: Write a Python script using the requests module.\n"

  /** The prompt built by `generate_script`. */
  function Prompt(instruction: string, input: string): (p: string)
    ensures StartsWith(p, Header)
    ensures p[|Header|..] == "# Task: " + instruction + "\n# Details: " + input + "\n\n"
  {
    Header + "# Task: " + instruction + "\n" + "# Details: " + input + "\n\n"
  }

  /** `s[n:]` in Python: empty when `n` is past the end. */
  function DropPrefix(s: string, n: nat): (r: string)
    ensures |r| == if n <= |s| then |s| - n else 0
    ensures n <= |s| ==> r == s[n..]
    ensures n > |s| ==> r == []
  {
    if n <= |s| then s[n..] else []
  }

  /** The fenced branch of the cleanup: strip every backtick at either end,
      remove the first `python` and strip again. */
  function Unfence(cleaned: string): (r: string)
    ensures |r| <= |cleaned|
    ensures Strip(r) == r
  {
    var unquoted := StripChar(cleaned, '`');
    var u := ReplaceFirst(unquoted, "python", "");
    assert |u| <= |unquoted| by {
      if Contains(unquoted, "python") {
        assert |u| == |unquoted| - 6;
      }
    }
    StripIdempotent(u);
    Strip(u)
  }

  /** The cleanup in `generate_script` after the prompt's length has been
      dropped: strip; a text that opens with a code fence is then unfenced. */
  function Cleanup(rest: string): (r: string)
    ensures |r| <= |rest|
    ensures Strip(r) == r
    ensures !StartsWith(Strip(rest), "```") ==> r == Strip(rest)
    ensures StartsWith(Strip(rest), "```") ==> r == Unfence(Strip(rest))
  {
    var cleaned := Strip(rest);
    StripIdempotent(rest);
    if StartsWith(cleaned, "```") then Unfence(cleaned) else cleaned
  }

  /** `generate_script(pipe, sample)` once the model has produced `generated`:
      `len(prompt)` characters are dropped, whatever they are, and the rest
      is cleaned up. */
  function GenerateScript(instruction: string, input: string, generated: string): (script: string)
    ensures Strip(script) == script
    ensures |script| <= |DropPrefix(generated, |Prompt(instruction, input)|)|
    ensures script == Cleanup(DropPrefix(generated, |Prompt(instruction, input)|))
    ensures |generated| <= |Prompt(instruction, input)| ==> script == []
  {
    Cleanup(DropPrefix(generated, |Prompt(instruction, input)|))
  }

  /** `generate_script(pipe, sample).strip()`, as both loops call it: the
      trailing strip changes nothing. */
  function StrippedScript(instruction: string, input: string, generated: string): (script: string)
    ensures script == GenerateScript(instruction, input, generated)
  {
    Strip(GenerateScript(instruction, input, generated))
  }

  /** When the model echoes the prompt, cleanup works on its continuation only. */
  lemma CleanupOfEcho(instruction: string, input: string, continuation: string)
    ensures GenerateScript(instruction, input, Prompt(instruction, input) + continuation) == Cleanup(continuation)
  {
    var p := Prompt(instruction, input);
    assert DropPrefix(p + continuation, |p|) == continuation;
  }

  /** Stripping the backticks of a fenced block leaves the language tag,
      the code and the line breaks around it. */
  lemma StripFence(body: string)
    requires body != [] && body[0] != '`' && body[|body| - 1] != '`'
    ensures StripChar("```" + body + "```", '`') == body
  {
    var f := "```" + body + "```";
    assert f[3..3 + |body|] == body;
    forall i | 0 <= i < 3 || 3 + |body| <= i < |f|
      ensures Is('`')(f[i])
    {
    }
    assert TrimmedAt(f, body, 3, Is('`'));
    StripCharExact(f, '`', body);
  }

  /** The first `python` of a text that opens with it is the opening one. */
  lemma ReplaceOpeningPython(rest: string)
    ensures ReplaceFirst("python" + rest, "python", "") == rest
  {
    var m := "python" + rest;
    assert OccursAt(m, "python", 0);
    var i: nat :| FirstAt(m, "python", i) && ReplaceFirst(m, "python", "") == m[..i] + "" + m[i + 6..];
    assert FirstAt(m, "python", i);
    assert forall j :: 0 <= j < i ==> !OccursAt(m, "python", j);
    assert i == 0;
    assert m[6..] == rest;
  }

  /** Stripping a line break on either side of stripped code gives the code. */
  lemma StripNewlines(code: string)
    requires code != [] && Strip(code) == code
    ensures Strip("\n" + code + "\n") == code
  {
    var u := "\n" + code + "\n";
    assert u[1..1 + |code|] == code;
    assert TrimmedAt(u, code, 1, IsSpace);
    StripExact(u, code);
  }

  /** A block fenced as `python` comes out as the code inside the fence,
      when that code is already stripped and has no backtick at either end. */
  lemma CleanupOfFencedBlock(code: string)
    requires code != [] && Strip(code) == code
    requires code[0] != '`' && code[|code| - 1] != '`'
    ensures Cleanup("```python\n" + code + "\n```") == code
  {
    var u := "\n" + code + "\n";
    var f := "```" + ("python" + u) + "```";
    assert "```python\n" + code + "\n```" == f;
    FencedCleanup(f);
    UnfenceOfPython(u);
    StripNewlines(code);
  }

  /** A text that opens and closes with a backtick is unfenced as it is. */
  lemma FencedCleanup(f: string)
    requires |f| >= 3 && f[..3] == "```" && f[|f| - 1] == '`'
    ensures Cleanup(f) == Unfence(f)
  {
    StripOfTrimmed(f);
  }

  /** Unfencing a `python` block leaves the stripped text after the tag. */
  lemma UnfenceOfPython(u: string)
    requires u != [] && u[|u| - 1] != '`'
    ensures Unfence("```" + ("python" + u) + "```") == Strip(u)
  {
    var body := "python" + u;
    assert body[0] == 'p' && body[|body| - 1] == u[|u| - 1];
    StripFence(body);
    ReplaceOpeningPython(u);
  }

  /** When the model echoes the prompt and then writes a fenced `python`
      block, the script is the code inside the fence. */
  lemma GenerateScriptOfFencedEcho(instruction: string, input: string, code: string)
    requires code != [] && Strip(code) == code
    requires code[0] != '`' && code[|code| - 1] != '`'
    ensures GenerateScript(instruction, input,
                           Prompt(instruction, input) + "```python\n" + code + "\n```") == code
  {
    var p := Prompt(instruction, input);
    var f := "```python\n" + code + "\n```";
    CleanupOfFencedBlock(code);
    assert Cleanup(f) == code;
    EchoedThen(p, "```python\n", code, "\n```");
    CleanupOfEcho(instruction, input, f);
  }

  /** The echoed prompt followed by the three parts of a continuation. */
  lemma EchoedThen(p: string, a: string, b: string, c: string)
    ensures p + a + b + c == p + (a + b + c)
  {
  }

  /** The marker `load_dataset` looks for in a raw line. */
  const PendingMarker := "\"output\": \"\""

  /** The raw lines that hold the marker, in order. */
  function PendingLines(lines: seq<string>): (kept: seq<string>)
    decreases |lines|
  {
    if lines == [] then []
    else PendingLines(lines[..|lines| - 1])
         + (if Contains(lines[|lines| - 1], PendingMarker) then [lines[|lines| - 1]] else [])
  }

  /** Exactly the marked lines are kept. */
  lemma {:induction false} PendingLinesExact(lines: seq<string>)
    decreases |lines|
    ensures forall l :: l in PendingLines(lines) <==> l in lines && Contains(l, PendingMarker)
  {
    if lines != [] {
      PendingLinesExact(lines[..|lines| - 1]);
      assert lines == lines[..|lines| - 1] + [lines[|lines| - 1]];
    }
  }

  /** `load_dataset(path)`: the marked lines, each parsed (`parse` stands
      for `json.loads`); a marked line that does not parse raises, and the
      unmarked ones are never parsed. */
  function LoadDataset(lines: seq<string>, parse: string -> Option<Record>): (r: Option<seq<Record>>)
    ensures r.Some? <==> forall l :: l in PendingLines(lines) ==> parse(l).Some?
    ensures r.Some? ==> |r.value| == |PendingLines(lines)|
    ensures r.Some? ==> forall k :: 0 <= k < |r.value| ==> Some(r.value[k]) == parse(PendingLines(lines)[k])
  {
    var kept := PendingLines(lines);
    if forall l :: l in kept ==> parse(l).Some? then
      Some(seq(|kept|, k requires 0 <= k < |kept| => parse(kept[k]).value))
    else None
  }
}
