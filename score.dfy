/** The quality scorer of scripts/score_checker.py: line, `def`, `class` and
    comment counts of a script, whether it compiles, and the pass over the
    generated file that logs a score per non-empty script and summarises them. */
module Score {
  import opened Wrappers
  import opened Text
  import opened Store

  const InputPath := "data/generated.jsonl"

  /** The three multi-line patterns `^\s*def\s+\w+`, `^\s*class\s+\w+`, `^\s*#.*`. */
  datatype Pattern = DefLine | ClassLine | CommentLine

  /** `^` in multi-line mode: the start of the text or just after a `\n`. */
  predicate LineStart(s: string, i: nat) {
    i == 0 || (i <= |s| && s[i - 1] == '\n')
  }

  /** End of the whitespace run (`\s*`, greedy) starting at `i`. */
  function SkipSpace(s: string, i: nat): (j: nat)
    requires i <= |s|
    decreases |s| - i
    ensures i <= j <= |s| && (j < |s| ==> !IsSpace(s[j]))
  {
    if i < |s| && IsSpace(s[i]) then SkipSpace(s, i + 1) else i
  }

  /** Everything `SkipSpace` skips is whitespace. */
  lemma {:induction false} SkipSpaceRun(s: string, i: nat)
    requires i <= |s|
    decreases |s| - i
    ensures forall k :: i <= k < SkipSpace(s, i) ==> IsSpace(s[k])
  {
    if i < |s| && IsSpace(s[i]) {
      SkipSpaceRun(s, i + 1);
    }
  }

  /** End of the word-character run (`\w*`, greedy) starting at `i`. */
  function SkipWord(s: string, i: nat): (j: nat)
    requires i <= |s|
    decreases |s| - i
    ensures i <= j <= |s|
  {
    if i < |s| && IsWordChar(s[i]) then SkipWord(s, i + 1) else i
  }

  /** End of `.*` from `i`: the next `\n`, or the end of the text. */
  function RestOfLine(s: string, i: nat): (j: nat)
    requires i <= |s|
    decreases |s| - i
    ensures i <= j <= |s|
  {
    if i < |s| && s[i] != '\n' then RestOfLine(s, i + 1) else i
  }

  /** `kw\s+\w+` at `j`: the end of the match or -1. */
  function KeywordMatch(s: string, j: nat, kw: string): (e: int)
    requires j <= |s|
    ensures e == -1 || (j < e <= |s| && StartsWith(s[j..], kw))
  {
    if StartsWith(s[j..], kw) then
      var k := SkipSpace(s, j + |kw|);
      if k > j + |kw| && k < |s| && IsWordChar(s[k]) then SkipWord(s, k) else -1
    else -1
  }

  /** The end of the match of pattern `p` anchored at `i`, or -1. A match
      starts at a line start, and its first non-blank character opens the
      keyword or the `#`. */
  function MatchAt(s: string, i: nat, p: Pattern): (e: int)
    requires i <= |s|
    ensures e == -1 || (i < e <= |s| && LineStart(s, i))
  {
    if !LineStart(s, i) then -1
    else
      var j := SkipSpace(s, i);
      match p
      case DefLine => KeywordMatch(s, j, "def")
      case ClassLine => KeywordMatch(s, j, "class")
      case CommentLine => if j < |s| && s[j] == '#' then RestOfLine(s, j + 1) else -1
  }

  /** `len(re.findall(p, s[i..], re.MULTILINE))`: non-overlapping matches,
      leftmost first, resuming where the last match ended. */
  function CountMatches(s: string, i: nat, p: Pattern): nat
    requires i <= |s|
    decreases |s| - i
  {
    if i == |s| then 0
    else
      var e := MatchAt(s, i, p);
      if e == -1 then CountMatches(s, i + 1, p) else 1 + CountMatches(s, e, p)
  }

  /** `p` matches at `i`. */
  predicate StartsMatch(s: string, i: nat, p: Pattern)
    requires i <= |s|
  {
    MatchAt(s, i, p) != -1
  }

  function Ind(b: bool): nat {
    if b then 1 else 0
  }

  /** The number of positions `k` in `[i, n)` with `f(k)`. */
  function CountWhere(f: nat -> bool, i: nat, n: nat): nat
    requires i <= n
    decreases n - i
  {
    if i == n then 0 else Ind(f(i)) + CountWhere(f, i + 1, n)
  }

  /** The positions of `s` where `p` could start a match. */
  function StartsOf(s: string, p: Pattern): nat -> bool {
    (k: nat) => k <= |s| && StartsMatch(s, k, p)
  }

  /** The positions of `s` that are line starts. */
  function LineStartsOf(s: string): nat -> bool {
    (k: nat) => LineStart(s, k)
  }

  /** `s[i..k]` is all whitespace and `s[k]` exists. */
  predicate SpacesUpTo(s: string, i: nat, k: nat) {
    i <= k < |s| && forall m :: i <= m < k ==> IsSpace(s[m])
  }

  /** `\s*` stops exactly at the first non-blank character. */
  lemma SkipSpaceTo(s: string, i: nat, k: nat)
    requires SpacesUpTo(s, i, k) && !IsSpace(s[k])
    ensures SkipSpace(s, i) == k
  {
    SkipSpaceRun(s, i);
  }

  /** `kw\s+\w` can be read at `j`: the keyword, at least one blank, a word character. */
  ghost predicate KeywordFollows(s: string, j: nat, kw: string) {
    && j <= |s| && StartsWith(s[j..], kw)
    && exists k: nat :: j + |kw| < k && SpacesUpTo(s, j + |kw|, k) && IsWordChar(s[k])
  }

  /** `kw\s+\w+` matches at `j` exactly when the keyword is followed by
      blanks and a word character. */
  lemma KeywordMatchMeaning(s: string, j: nat, kw: string)
    requires j <= |s|
    ensures KeywordMatch(s, j, kw) != -1 <==> KeywordFollows(s, j, kw)
  {
    if StartsWith(s[j..], kw) {
      var a := j + |kw|;
      var k := SkipSpace(s, a);
      if KeywordMatch(s, j, kw) != -1 {
        assert a < k < |s| && IsWordChar(s[k]);
        SkipSpaceRun(s, a);
        assert SpacesUpTo(s, a, k);
      }
      if k': nat :| a < k' && SpacesUpTo(s, a, k') && IsWordChar(s[k']) {
        assert !IsSpace(s[k']);
        SkipSpaceTo(s, a, k');
        assert k == k';
      }
    }
  }

  /** What the first non-blank character at `j` must open for `p` to match. */
  ghost predicate Opens(s: string, j: nat, p: Pattern)
    requires j < |s|
  {
    match p
    case DefLine => KeywordFollows(s, j, "def")
    case ClassLine => KeywordFollows(s, j, "class")
    case CommentLine => s[j] == '#'
  }

  /** The character a pattern opens with is not blank, so `\s*` stops right at it. */
  lemma OpensAfterBlanks(s: string, i: nat, j: nat, p: Pattern)
    requires SpacesUpTo(s, i, j) && Opens(s, j, p)
    ensures SkipSpace(s, i) == j
  {
    if p == DefLine {
      assert s[j..][0] == 'd';
    } else if p == ClassLine {
      assert s[j..][0] == 'c';
    }
    SkipSpaceTo(s, i, j);
  }

  /** A pattern matches at `i` exactly when `i` is a line start and the
      first non-blank character from there opens `def`/`class` followed by
      blanks and a name, or a `#` comment. */
  lemma MatchAtMeaning(s: string, i: nat, p: Pattern)
    requires i <= |s|
    ensures StartsMatch(s, i, p) <==> LineStart(s, i) && exists j: nat :: SpacesUpTo(s, i, j) && Opens(s, j, p)
  {
    if LineStart(s, i) {
      var j := SkipSpace(s, i);
      if p != CommentLine {
        KeywordMatchMeaning(s, j, if p == DefLine then "def" else "class");
      }
      if StartsMatch(s, i, p) {
        SkipSpaceRun(s, i);
        assert SpacesUpTo(s, i, j) && Opens(s, j, p);
      }
      if j': nat :| SpacesUpTo(s, i, j') && Opens(s, j', p) {
        OpensAfterBlanks(s, i, j', p);
      }
    }
  }

  /** `findall` finds nothing from `i` on exactly when no position from
      `i` on starts a match. */
  lemma {:induction false} NoMatchesIff(s: string, i: nat, p: Pattern)
    requires i <= |s|
    decreases |s| - i
    ensures CountMatches(s, i, p) == 0 <==> forall k :: i <= k < |s| ==> !StartsMatch(s, k, p)
  {
    if i < |s| {
      NoMatchesIff(s, i + 1, p);
      CountStep(s, i, p);
      if StartsMatch(s, i, p) {
        assert CountMatches(s, i, p) != 0;
      } else {
        assert CountMatches(s, i, p) == CountMatches(s, i + 1, p);
      }
    } else {
      assert CountMatches(s, i, p) == 0;
    }
  }

  /** The number of positions at or after `i` where `p` could start a match. */
  function MatchStarts(s: string, i: nat, p: Pattern): nat
    requires i <= |s|
  {
    CountWhere(StartsOf(s, p), i, |s|)
  }

  /** The number of line starts in `[i, |s|)`. */
  function LineStarts(s: string, i: nat): nat
    requires i <= |s|
  {
    CountWhere(LineStartsOf(s), i, |s|)
  }

  /** The score of one script; `variable_count` and `hardcoded_values` are not modelled. */
  datatype Score = Score(lineCount: nat, functionCount: nat, classCount: nat, commentCount: nat, syntaxValid: bool)

  /** `analyze_code(code)`. Whether `compile(code, "<string>", "exec")`
      succeeds is the oracle `compiles`; the script is never run. */
  function AnalyzeCode(code: string, compiles: string -> bool): (r: Score)
    ensures r.lineCount == 0 <==> Strip(code) == []
    ensures r.syntaxValid == compiles(code)
    ensures r.functionCount == CountMatches(code, 0, DefLine)
    ensures r.classCount == CountMatches(code, 0, ClassLine)
    ensures r.commentCount == CountMatches(code, 0, CommentLine)
  {
    Score(|SplitLines(Strip(code))|,
          CountMatches(code, 0, DefLine),
          CountMatches(code, 0, ClassLine),
          CountMatches(code, 0, CommentLine),
          compiles(code))
  }

  /** A count over a shorter range is no larger. */
  lemma {:induction false} CountWhereMonotone(f: nat -> bool, a: nat, b: nat, n: nat)
    requires a <= b <= n
    decreases b - a
    ensures CountWhere(f, b, n) <= CountWhere(f, a, n)
  {
    if a < b {
      CountWhereMonotone(f, a + 1, b, n);
    }
  }

  /** Three counts whose predicates hold together at most where a fourth
      holds add up to at most the fourth count. */
  lemma {:induction false} CountWhereThree(f: nat -> bool, g: nat -> bool, h: nat -> bool, l: nat -> bool, i: nat, n: nat)
    requires i <= n
    requires forall k :: i <= k < n ==> Ind(f(k)) + Ind(g(k)) + Ind(h(k)) <= Ind(l(k))
    decreases n - i
    ensures CountWhere(f, i, n) + CountWhere(g, i, n) + CountWhere(h, i, n) <= CountWhere(l, i, n)
  {
    if i < n {
      CountWhereThree(f, g, h, l, i + 1, n);
    }
  }

  /** Fewer match starts remain further on. */
  lemma MatchStartsMonotone(s: string, a: nat, b: nat, p: Pattern)
    requires a <= b <= |s|
    ensures MatchStarts(s, b, p) <= MatchStarts(s, a, p)
  {
    CountWhereMonotone(StartsOf(s, p), a, b, |s|);
  }

  /** Matches found by the scan never outnumber the positions where one could start. */
  lemma {:induction false} CountedAtMostStarts(s: string, i: nat, p: Pattern)
    requires i <= |s|
    decreases |s| - i
    ensures CountMatches(s, i, p) <= MatchStarts(s, i, p)
  {
    if i < |s| {
      var e := MatchAt(s, i, p);
      if e == -1 {
        CountedAtMostStarts(s, i + 1, p);
        CountStep(s, i, p);
      } else {
        CountedAtMostStarts(s, e, p);
        HitStep(s, i, p);
      }
    } else {
      assert CountMatches(s, i, p) == 0;
    }
  }

  /** A match at `i` counts once, and the scan resumes at its end. */
  lemma HitStep(s: string, i: nat, p: Pattern)
    requires i < |s| && MatchAt(s, i, p) != -1
    requires CountMatches(s, MatchAt(s, i, p), p) <= MatchStarts(s, MatchAt(s, i, p), p)
    ensures CountMatches(s, i, p) <= MatchStarts(s, i, p)
  {
    CountStep(s, i, p);
    MatchStartsMonotone(s, i + 1, MatchAt(s, i, p), p);
  }

  /** One step of the scan and of the count of match starts. */
  lemma CountStep(s: string, i: nat, p: Pattern)
    requires i < |s|
    ensures MatchAt(s, i, p) == -1 ==>
      CountMatches(s, i, p) == CountMatches(s, i + 1, p) && MatchStarts(s, i, p) == MatchStarts(s, i + 1, p)
    ensures MatchAt(s, i, p) != -1 ==>
      CountMatches(s, i, p) == 1 + CountMatches(s, MatchAt(s, i, p), p)
      && MatchStarts(s, i, p) == 1 + MatchStarts(s, i + 1, p)
  {
  }

  /** At one position at most one of the three patterns can match, and only at a line start. */
  lemma StartsShareLines(s: string, i: nat)
    requires i <= |s|
    ensures MatchStarts(s, i, DefLine) + MatchStarts(s, i, ClassLine) + MatchStarts(s, i, CommentLine)
            <= LineStarts(s, i)
  {
    var f, g, h, l := StartsOf(s, DefLine), StartsOf(s, ClassLine), StartsOf(s, CommentLine), LineStartsOf(s);
    forall k | i <= k < |s|
      ensures Ind(f(k)) + Ind(g(k)) + Ind(h(k)) <= Ind(l(k))
    {
      OnePatternPerPosition(s, k);
    }
    CountWhereThree(f, g, h, l, i, |s|);
  }

  /** The first non-blank character of a match is `d`, `c` or `#`, so the
      three patterns never match at the same position. */
  lemma OnePatternPerPosition(s: string, i: nat)
    requires i < |s|
    ensures (if MatchAt(s, i, DefLine) != -1 then 1 else 0)
            + (if MatchAt(s, i, ClassLine) != -1 then 1 else 0)
            + (if MatchAt(s, i, CommentLine) != -1 then 1 else 0)
            <= (if LineStart(s, i) then 1 else 0)
  {
    if LineStart(s, i) {
      var j := SkipSpace(s, i);
      var d := KeywordMatch(s, j, "def");
      var c := KeywordMatch(s, j, "class");
      assert MatchAt(s, i, DefLine) == d;
      assert MatchAt(s, i, ClassLine) == c;
      if d != -1 {
        assert s[j..][..3] == "def";
        assert s[j] == 'd';
      }
      if c != -1 {
        assert s[j..][..5] == "class";
        assert s[j] == 'c';
      }
    }
  }

  /** Line starts after position 0 sit right after the `\n`s before the last character. */
  lemma {:induction false} LineStartsAreNewlines(s: string, i: nat)
    requires 1 <= i <= |s|
    decreases |s| - i
    ensures LineStarts(s, i) == CountChar(s[i - 1..|s| - 1], '\n')
  {
    if i < |s| {
      LineStartsAreNewlines(s, i + 1);
      var t := s[i - 1..|s| - 1];
      assert t[0] == s[i - 1] && t[1..] == s[i..|s| - 1];
    }
  }

  /** A text that does not end with `\n` has one line start per `\n`, plus one. */
  lemma LineStartsCount(s: string)
    requires s != [] && s[|s| - 1] != '\n'
    ensures LineStarts(s, 0) == 1 + CountChar(s, '\n')
  {
    LineStartsAreNewlines(s, 1);
    assert s == s[0..|s| - 1] + [s[|s| - 1]];
    CountCharConcat(s[0..|s| - 1], [s[|s| - 1]], '\n');
  }

  /** For a stripped script (what `run_score_checker` passes in), the
      `def`, `class` and comment lines together never outnumber the lines. */
  lemma CountsWithinLines(code: string, compiles: string -> bool)
    requires Strip(code) == code
    ensures var r := AnalyzeCode(code, compiles);
            r.functionCount + r.classCount + r.commentCount <= r.lineCount
  {
    CountedAtMostStarts(code, 0, DefLine);
    CountedAtMostStarts(code, 0, ClassLine);
    CountedAtMostStarts(code, 0, CommentLine);
    StartsShareLines(code, 0);
    if code != [] {
      LineStartsCount(code);
      SplitLinesCountsNewlines(code);
    }
  }

  /** One line of the score log: the sample's id (`None` for JSON null), its instruction and its score. */
  datatype LogEntry = LogEntry(id: Option<string>, instruction: string, score: Score)

  /** The summary file, with the averages kept as sums over `total` scripts. */
  datatype Summary = Summary(total: nat, lineSum: nat, functionSum: nat, commentSum: nat, syntaxValidCount: nat)

  /** Where the pass stands after some lines: the log lines appended so far,
      the scores gathered, and whether a line raised. */
  datatype Progress = Progress(log: seq<LogEntry>, scores: seq<Score>, crashed: bool)

  /** One line of the pass: a line that does not parse raises; an empty
      stripped output is skipped; otherwise the script is scored and, when
      the sample has an `instruction`, logged (without one, it raises). */
  function Step(prog: Progress, line: Line, compiles: string -> bool): Progress {
    if prog.crashed then prog
    else if line.Malformed? then Progress(prog.log, prog.scores, true)
    else
      var code := Strip(Get(line.rec, "output"));
      if code == [] then prog
      else
        var score := AnalyzeCode(code, compiles);
        if "instruction" !in line.rec then Progress(prog.log, prog.scores + [score], true)
        else
          var id := if "id" in line.rec then Some(line.rec["id"]) else None;
          Progress(prog.log + [LogEntry(id, line.rec["instruction"], score)], prog.scores + [score], false)
  }

  /** The pass over a prefix of the file. */
  function Run(lines: seq<Line>, compiles: string -> bool): Progress
    decreases |lines|
  {
    if lines == [] then Progress([], [], false)
    else Step(Run(lines[..|lines| - 1], compiles), lines[|lines| - 1], compiles)
  }

  function Summarize(scores: seq<Score>): Summary
    decreases |scores|
  {
    if scores == [] then Summary(0, 0, 0, 0, 0)
    else
      var s := Summarize(scores[..|scores| - 1]);
      var last := scores[|scores| - 1];
      Summary(s.total + 1, s.lineSum + last.lineCount, s.functionSum + last.functionCount,
              s.commentSum + last.commentCount, s.syntaxValidCount + (if last.syntaxValid then 1 else 0))
  }

  /** `run_score_checker()`. `log` is what the pass appends to the score log;
      `summary` is what it writes to the summary file, `None` when it
      writes none (missing input, a line that raised, or nothing scored). */
  method RunScoreChecker(file: Option<seq<Line>>, compiles: string -> bool)
    returns (log: seq<LogEntry>, summary: Option<Summary>)
    ensures file.None? ==> log == [] && summary.None?
    ensures file.Some? ==> log == Run(file.value, compiles).log
    ensures file.Some? ==>
      var prog := Run(file.value, compiles);
      summary == if prog.crashed || prog.scores == [] then None else Some(Summarize(prog.scores))
  {
    if file.None? {
      return [], None;
    }
    var lines := file.value;
    var allScores: seq<Score> := [];
    log := [];
    var i := 0;
    while i < |lines|
      invariant 0 <= i <= |lines|
      invariant Run(lines[..i], compiles) == Progress(log, allScores, false)
    {
      assert lines[..i + 1][..i] == lines[..i];
      var line := lines[i];
      if line.Malformed? {
        CrashIsFinal(lines, i + 1, compiles);
        return log, None;
      }
      var code := Strip(Get(line.rec, "output"));
      if code == [] {
        i := i + 1;
        continue;
      }
      var score := AnalyzeCode(code, compiles);
      allScores := allScores + [score];
      if "instruction" !in line.rec {
        CrashIsFinal(lines, i + 1, compiles);
        return log, None;
      }
      var id := if "id" in line.rec then Some(line.rec["id"]) else None;
      log := log + [LogEntry(id, line.rec["instruction"], score)];
      i := i + 1;
    }
    assert lines[..i] == lines;
    if allScores == [] {
      return log, None;
    }
    summary := Some(Summarize(allScores));
  }

  /** Once a line has raised, later lines change nothing. */
  lemma {:induction false} CrashIsFinal(lines: seq<Line>, n: nat, compiles: string -> bool)
    requires n <= |lines| && Run(lines[..n], compiles).crashed
    decreases |lines| - n
    ensures Run(lines, compiles) == Run(lines[..n], compiles)
  {
    if n == |lines| {
      assert lines[..n] == lines;
    } else {
      assert lines[..n + 1][..n] == lines[..n];
      CrashIsFinal(lines, n + 1, compiles);
    }
  }

  /** Every log line belongs to a scored script, and scores are gathered for
      exactly the logged samples plus at most one that raised. */
  lemma {:induction false} RunCounts(lines: seq<Line>, compiles: string -> bool)
    decreases |lines|
    ensures var prog := Run(lines, compiles);
            |prog.log| <= |prog.scores| <= |lines|
            && (!prog.crashed ==> |prog.log| == |prog.scores|)
  {
    if lines != [] {
      var init := lines[..|lines| - 1];
      RunCounts(init, compiles);
      StepCounts(Run(init, compiles), lines[|lines| - 1], compiles);
    }
  }

  /** One step scores at most one script, and logs it unless it raised. */
  lemma StepCounts(prog: Progress, line: Line, compiles: string -> bool)
    ensures var next := Step(prog, line, compiles);
            && |prog.scores| <= |next.scores| <= |prog.scores| + 1
            && |prog.log| <= |next.log| <= |prog.log| + (|next.scores| - |prog.scores|)
            && (!next.crashed ==> !prog.crashed && |next.log| - |prog.log| == |next.scores| - |prog.scores|)
  {
    var next := Step(prog, line, compiles);
    if prog.crashed || line.Malformed? || Strip(Get(line.rec, "output")) == [] {
      assert |next.scores| - |prog.scores| == 0 && |next.log| == |prog.log|;
    } else if "instruction" !in line.rec {
      assert next.crashed && |next.scores| == |prog.scores| + 1 && next.log == prog.log;
    } else {
      assert !next.crashed && |next.scores| == |prog.scores| + 1 && |next.log| == |prog.log| + 1;
    }
  }

  /** `e` is the log line written for `line`: a sample with a non-empty
      stripped output, scored on that output. */
  predicate LoggedFrom(e: LogEntry, line: Line, compiles: string -> bool) {
    && line.Parsed?
    && Strip(Get(line.rec, "output")) != []
    && "instruction" in line.rec
    && e.instruction == line.rec["instruction"]
    && e.score == AnalyzeCode(Strip(Get(line.rec, "output")), compiles)
  }

  /** One step appends at most the log line of its own sample. */
  lemma StepLog(prog: Progress, line: Line, compiles: string -> bool)
    ensures var next := Step(prog, line, compiles);
            next.log == prog.log
            || (|next.log| == |prog.log| + 1 && next.log[..|prog.log|] == prog.log
                && LoggedFrom(next.log[|prog.log|], line, compiles))
  {
    var next := Step(prog, line, compiles);
    if !prog.crashed && line.Parsed? {
      var code := Strip(Get(line.rec, "output"));
      if code != [] && "instruction" in line.rec {
        var e := next.log[|prog.log|];
        assert next.log == prog.log + [e];
        assert e.instruction == line.rec["instruction"] && e.score == AnalyzeCode(code, compiles);
      }
    }
  }

  /** `e` is the log line of some line of `lines`. */
  predicate LoggedIn(e: LogEntry, lines: seq<Line>, compiles: string -> bool) {
    exists k :: 0 <= k < |lines| && LoggedFrom(e, lines[k], compiles)
  }

  /** Samples whose stripped output is empty are neither scored nor logged:
      each log line is the score of a non-empty stripped script. */
  lemma {:induction false} LoggedScriptsNonEmpty(lines: seq<Line>, compiles: string -> bool)
    decreases |lines|
    ensures forall e :: e in Run(lines, compiles).log ==> LoggedIn(e, lines, compiles)
  {
    if lines != [] {
      var init := lines[..|lines| - 1];
      var last := lines[|lines| - 1];
      var prev := Run(init, compiles);
      var next := Run(lines, compiles);
      assert next == Step(prev, last, compiles);
      LoggedScriptsNonEmpty(init, compiles);
      StepLog(prev, last, compiles);
      forall e | e in next.log
        ensures LoggedIn(e, lines, compiles)
      {
        if e in prev.log {
          LoggedInExtend(lines, e, compiles);
        } else {
          NewEntryIsLast(prev.log, next.log, e);
          LoggedInLast(lines, e, compiles);
        }
      }
    } else {
      assert Run(lines, compiles).log == [];
    }
  }

  /** An entry that only the longer log holds is its last one. */
  lemma NewEntryIsLast(before: seq<LogEntry>, after: seq<LogEntry>, e: LogEntry)
    requires |after| == |before| + 1 && after[..|before|] == before
    requires e in after && e !in before
    ensures e == after[|before|]
  {
    assert after == before + [after[|before|]];
  }

  /** A log line of a prefix is a log line of the whole file. */
  lemma LoggedInExtend(lines: seq<Line>, e: LogEntry, compiles: string -> bool)
    requires lines != [] && LoggedIn(e, lines[..|lines| - 1], compiles)
    ensures LoggedIn(e, lines, compiles)
  {
    var init := lines[..|lines| - 1];
    var k :| 0 <= k < |init| && LoggedFrom(e, init[k], compiles);
    var line := lines[k];
    assert line == init[k];
    assert 0 <= k < |lines| && LoggedFrom(e, line, compiles);
  }

  /** The log line of the last line is a log line of the file. */
  lemma LoggedInLast(lines: seq<Line>, e: LogEntry, compiles: string -> bool)
    requires lines != [] && LoggedFrom(e, lines[|lines| - 1], compiles)
    ensures LoggedIn(e, lines, compiles)
  {
  }

  /** The summary counts every scored script, and no more of them compile than were scored. */
  lemma {:induction false} SummaryBounds(scores: seq<Score>)
    decreases |scores|
    ensures Summarize(scores).total == |scores|
    ensures Summarize(scores).syntaxValidCount <= Summarize(scores).total
  {
    if scores != [] {
      SummaryBounds(scores[..|scores| - 1]);
    }
  }
}
