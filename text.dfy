/** Python string operations used by the pipeline, on `seq<char>`.
    Whitespace and line boundaries follow Python's `str.isspace` and
    `str.splitlines`; case folding is limited to ASCII letters. */
module Text {

  /** Characters for which Python's `str.isspace()` holds (and which the
      regular-expression class `\s` matches). */
  predicate IsSpace(c: char) {
    c == ' ' || ('\t' <= c <= '\r') || ('\U{1C}' <= c <= '\U{1F}')
    || c == '\U{85}' || c == '\U{A0}' || c == '\U{1680}'
    || ('\U{2000}' <= c <= '\U{200A}') || c == '\U{2028}' || c == '\U{2029}'
    || c == '\U{202F}' || c == '\U{205F}' || c == '\U{3000}'
  }

  /** Line boundaries recognised by Python's `str.splitlines()`. */
  predicate IsLineBreak(c: char) {
    c == '\n' || c == '\r' || c == '\U{0B}' || c == '\U{0C}'
    || ('\U{1C}' <= c <= '\U{1E}') || c == '\U{85}' || c == '\U{2028}' || c == '\U{2029}'
  }

  /** ASCII letters, digits and `_`: the characters `\w` matches. */
  predicate IsWordChar(c: char) {
    ('a' <= c <= 'z') || ('A' <= c <= 'Z') || ('0' <= c <= '9') || c == '_'
  }

  /** `s.lstrip()` */
  function TrimLeft(s: string): (r: string)
    ensures |r| <= |s| && r == s[|s| - |r|..]
    ensures r == [] || !IsSpace(r[0])
    ensures forall i :: 0 <= i < |s| - |r| ==> IsSpace(s[i])
  {
    if s != [] && IsSpace(s[0]) then TrimLeft(s[1..]) else s
  }

  /** `s.rstrip()` */
  function TrimRight(s: string): (r: string)
    ensures |r| <= |s| && r == s[..|r|]
    ensures r == [] || !IsSpace(r[|r| - 1])
    ensures forall i :: |r| <= i < |s| ==> IsSpace(s[i])
  {
    if s != [] && IsSpace(s[|s| - 1]) then TrimRight(s[..|s| - 1]) else s
  }

  /** `s.strip()`: the slice of `s` left once every leading and trailing
      whitespace character is removed. */
  function Strip(s: string): (r: string)
    ensures |r| <= |s|
    ensures r == [] || (!IsSpace(r[0]) && !IsSpace(r[|r| - 1]))
    ensures Contains(s, r)
  {
    var l := TrimLeft(s);
    var r := TrimRight(l);
    TrimBothSlice(s, l, r, |s| - |l|);
    r
  }

  /** `r` is what is left of `s` once every character satisfying `drop` is
      removed from both ends; `r` starts at index `a` of `s`. */
  predicate TrimmedAt(s: string, r: string, a: nat, drop: char -> bool) {
    && a + |r| <= |s| && r == s[a..a + |r|]
    && (forall i :: 0 <= i < a ==> drop(s[i]))
    && (forall i :: a + |r| <= i < |s| ==> drop(s[i]))
    && (r == [] || (!drop(r[0]) && !drop(r[|r| - 1])))
  }

  /** At most one text is left once the ends are trimmed. */
  lemma TrimmedUnique(s: string, r1: string, a1: nat, r2: string, a2: nat, drop: char -> bool)
    requires TrimmedAt(s, r1, a1, drop) && TrimmedAt(s, r2, a2, drop)
    ensures r1 == r2
  {
    if r2 != [] {
      assert s[a2] == r2[0] && s[a2 + |r2| - 1] == r2[|r2| - 1];
      assert a1 <= a2 && a2 + |r2| <= a1 + |r1|;
    }
    if r1 != [] {
      assert s[a1] == r1[0] && s[a1 + |r1| - 1] == r1[|r1| - 1];
      assert a2 <= a1 && a1 + |r1| <= a2 + |r2|;
    }
  }

  /** A prefix of a suffix is a slice. */
  lemma PrefixOfSuffix(s: string, a: nat, l: string, t: string)
    requires a <= |s| && l == s[a..] && |t| <= |l| && t == l[..|t|]
    ensures t == s[a..a + |t|]
  {
    forall k | 0 <= k < |t|
      ensures t[k] == s[a + k]
    {
      assert t[k] == l[k];
    }
  }

  /** Trimming both sides keeps a slice of the text, starting at `a`,
      followed by whitespace only. */
  lemma TrimBothSlice(s: string, l: string, t: string, a: nat)
    requires l == TrimLeft(s) && t == TrimRight(l) && a == |s| - |l|
    ensures a + |t| <= |s| && t == s[a..a + |t|]
    ensures forall i :: a + |t| <= i < |s| ==> IsSpace(s[i])
    ensures Contains(s, t)
  {
    PrefixOfSuffix(s, a, l, t);
    assert OccursAt(s, t, a);
    forall i | a + |t| <= i < |s|
      ensures IsSpace(s[i])
    {
      assert s[i] == l[i - a];
    }
  }

  /** Strip keeps the slice between the leading and the trailing whitespace. */
  lemma StripTrims(s: string)
    ensures exists a: nat :: TrimmedAt(s, Strip(s), a, IsSpace)
  {
    var l := TrimLeft(s);
    var t := Strip(s);
    var a: nat := |s| - |l|;
    assert t == TrimRight(l);
    TrimBothSlice(s, l, t, a);
    var d: char -> bool := IsSpace;
    assert forall i :: a + |t| <= i < |s| ==> d(s[i]);
    assert forall i :: 0 <= i < a ==> d(s[i]);
    assert t == [] || (!d(t[0]) && !d(t[|t| - 1]));
    assert TrimmedAt(s, t, a, d);
  }

  /** Strip leaves exactly the text between the leading and the trailing
      whitespace: its result is the one text trimmed of whitespace at both ends. */
  lemma StripExact(s: string, r: string)
    ensures r == Strip(s) <==> exists a: nat :: TrimmedAt(s, r, a, IsSpace)
  {
    StripTrims(s);
    var a: nat :| TrimmedAt(s, Strip(s), a, IsSpace);
    if b: nat :| TrimmedAt(s, r, b, IsSpace) {
      TrimmedUnique(s, r, b, Strip(s), a, IsSpace);
    }
  }

  /** A stripped text is its own strip. */
  lemma StripIdempotent(s: string)
    ensures Strip(Strip(s)) == Strip(s)
  {
    var t := Strip(s);
    assert t == [] || !IsSpace(t[0]);
    assert TrimLeft(t) == t;
    assert t == [] || !IsSpace(t[|t| - 1]);
  }

  /** Strip removes nothing from a text with no whitespace at its ends. */
  lemma StripOfTrimmed(s: string)
    requires s == [] || (!IsSpace(s[0]) && !IsSpace(s[|s| - 1]))
    ensures Strip(s) == s
  {
  }

  /** `s.startswith(p)` */
  predicate StartsWith(s: string, p: string) {
    |p| <= |s| && s[..|p|] == p
  }

  /** `sub` occurs in `s` at position `i`. */
  predicate OccursAt(s: string, sub: string, i: int) {
    0 <= i && i + |sub| <= |s| && s[i..i + |sub|] == sub
  }

  /** `sub in s` */
  predicate Contains(s: string, sub: string) {
    exists i | 0 <= i <= |s| - |sub| :: OccursAt(s, sub, i)
  }

  /** The first position at or after `from` where `sub` occurs (`s.find(sub, from)`). */
  function FindFrom(s: string, sub: string, from: nat): (r: int)
    requires from <= |s|
    decreases |s| - from
    ensures r == -1 || (from <= r && OccursAt(s, sub, r))
    ensures r == -1 ==> forall i :: from <= i <= |s| - |sub| ==> !OccursAt(s, sub, i)
    ensures r != -1 ==> forall i :: from <= i < r ==> !OccursAt(s, sub, i)
  {
    if OccursAt(s, sub, from) then from
    else if from + |sub| >= |s| then -1
    else FindFrom(s, sub, from + 1)
  }

  /** `s.find(sub)` agrees with `sub in s`. */
  lemma FindAgreesWithContains(s: string, sub: string)
    ensures (FindFrom(s, sub, 0) != -1) == Contains(s, sub)
  {
    var r := FindFrom(s, sub, 0);
    if r != -1 {
      assert OccursAt(s, sub, r);
    }
  }

  /** A text contains every slice of itself. */
  lemma ContainsSlice(s: string, i: nat, j: nat)
    requires i <= j <= |s|
    ensures Contains(s, s[i..j])
  {
    assert OccursAt(s, s[i..j], i);
  }

  /** Containment passes from a text to a text containing it. */
  lemma ContainsTransitive(a: string, b: string, c: string)
    requires Contains(a, b) && Contains(b, c)
    ensures Contains(a, c)
  {
    var i :| 0 <= i <= |a| - |b| && OccursAt(a, b, i);
    var j :| 0 <= j <= |b| - |c| && OccursAt(b, c, j);
    forall k | 0 <= k < |c|
      ensures a[i + j + k] == c[k]
    {
      assert b[j + k] == c[k];
      assert a[i + (j + k)] == b[j + k];
    }
    assert a[i + j..i + j + |c|] == c;
    assert OccursAt(a, c, i + j);
  }

  /** ASCII lower-casing of one character. */
  function LowerChar(c: char): (r: char)
    ensures 'A' <= c <= 'Z' ==> 'a' <= r <= 'z'
    ensures !('A' <= c <= 'Z') ==> r == c
  {
    if 'A' <= c <= 'Z' then (c as int - 'A' as int + 'a' as int) as char else c
  }

  /** `s.lower()` on ASCII letters. */
  function Lower(s: string): (r: string)
    ensures |r| == |s|
    ensures forall i :: 0 <= i < |s| ==> r[i] == LowerChar(s[i])
  {
    seq(|s|, i requires 0 <= i < |s| => LowerChar(s[i]))
  }

  /** `s.count(c)` for a single character. */
  function CountChar(s: string, c: char): (n: nat)
    ensures n <= |s|
    ensures n == 0 <==> forall i :: 0 <= i < |s| ==> s[i] != c
  {
    if s == [] then 0 else (if s[0] == c then 1 else 0) + CountChar(s[1..], c)
  }

  /** The number of occurrences of `c` in a concatenation is the sum of both. */
  lemma {:induction false} CountCharConcat(a: string, b: string, c: char)
    ensures CountChar(a + b, c) == CountChar(a, c) + CountChar(b, c)
  {
    if a != [] {
      assert a + b != [] && (a + b)[0] == a[0];
      assert (a + b)[1..] == a[1..] + b;
      CountCharConcat(a[1..], b, c);
    } else {
      assert a + b == b;
    }
  }

  /** Position of the first line boundary at or after `i`, or `|s|`. */
  function LineEnd(s: string, i: nat): (k: nat)
    requires i <= |s|
    decreases |s| - i
    ensures i <= k <= |s|
    ensures k < |s| ==> IsLineBreak(s[k])
    ensures forall j :: i <= j < k ==> !IsLineBreak(s[j])
  {
    if i == |s| || IsLineBreak(s[i]) then i else LineEnd(s, i + 1)
  }

  /** `s.splitlines()`: the lines of `s` without their boundaries; `\r\n`
      is one boundary, and a final boundary opens no extra empty line. */
  function SplitLines(s: string): (lines: seq<string>)
    decreases |s|
    ensures (lines == []) == (s == [])
  {
    if s == [] then []
    else
      var k := LineEnd(s, 0);
      if k == |s| then [s]
      else
        [s[..k]] + SplitLines(s[BoundaryEnd(s, k)..])
  }

  /** No line of `splitlines()` holds a line boundary. */
  lemma {:induction false} SplitLinesNoBreaks(s: string)
    decreases |s|
    ensures forall l :: l in SplitLines(s) ==> forall j :: 0 <= j < |l| ==> !IsLineBreak(l[j])
  {
    if s != [] {
      var k := LineEnd(s, 0);
      if k == |s| {
        assert SplitLines(s) == [s];
      } else {
        var rest := s[BoundaryEnd(s, k)..];
        SplitLinesNoBreaks(rest);
        assert SplitLines(s) == [s[..k]] + SplitLines(rest);
      }
    }
  }

  /** The boundary that ends the first line of `s` (at `k`) spans `k..next`. */
  function BoundaryEnd(s: string, k: nat): (next: nat)
    requires k < |s|
    ensures k < next <= |s| && next <= k + 2
  {
    if s[k] == '\r' && k + 1 < |s| && s[k + 1] == '\n' then k + 2 else k + 1
  }

  /** A non-empty text that does not end on a line boundary has one line
      more than it has `\n` characters (or more, counting the other boundaries). */
  lemma {:induction false} SplitLinesCountsNewlines(s: string)
    requires s != [] && !IsLineBreak(s[|s| - 1])
    ensures |SplitLines(s)| >= 1 + CountChar(s, '\n')
    decreases |s|
  {
    var k := LineEnd(s, 0);
    if k == |s| {
      NoNewlineBeforeEnd(s, k);
      assert s[..k] == s;
    } else {
      var next := BoundaryEnd(s, k);
      var rest := s[next..];
      assert next < |s|;
      assert rest[|rest| - 1] == s[|s| - 1];
      SplitLinesCountsNewlines(rest);
      assert SplitLines(s) == [s[..k]] + SplitLines(rest);
      FirstLineNewlines(s, k, next);
    }
  }

  /** The first line and its boundary hold at most one `\n`. */
  lemma FirstLineNewlines(s: string, k: nat, next: nat)
    requires k < |s| && next == BoundaryEnd(s, k)
    requires forall j :: 0 <= j < k ==> !IsLineBreak(s[j])
    ensures CountChar(s, '\n') <= 1 + CountChar(s[next..], '\n')
  {
    CountCharSplit(s, k, next, '\n');
    NoNewlineBeforeEnd(s, k);
    BoundaryNewlines(s, k, next);
  }

  /** Counting over three consecutive slices. */
  lemma CountCharSplit(s: string, k: nat, next: nat, c: char)
    requires k <= next <= |s|
    ensures CountChar(s, c) == CountChar(s[..k], c) + CountChar(s[k..next], c) + CountChar(s[next..], c)
  {
    var line, boundary, rest := s[..k], s[k..next], s[next..];
    assert line + boundary == s[..next];
    assert s[..next] + rest == s;
    CountCharConcat(line + boundary, rest, c);
    CountCharConcat(line, boundary, c);
  }

  /** A line boundary holds at most one `\n`. */
  lemma BoundaryNewlines(s: string, k: nat, next: nat)
    requires k < |s| && next == BoundaryEnd(s, k)
    ensures CountChar(s[k..next], '\n') <= 1
  {
    if next == k + 2 {
      assert s[k..next] == [s[k]] + [s[k + 1]];
      CountCharConcat([s[k]], [s[k + 1]], '\n');
    }
  }

  /** A stretch with no line boundary has no `\n`. */
  lemma NoNewlineBeforeEnd(s: string, k: nat)
    requires k <= |s|
    requires forall j :: 0 <= j < k ==> !IsLineBreak(s[j])
    ensures CountChar(s[..k], '\n') == 0
  {
    var t := s[..k];
    assert forall j :: 0 <= j < |t| ==> t[j] != '\n';
  }

  /** The test "is the character `c`", as a value. */
  function Is(c: char): char -> bool {
    (x: char) => x == c
  }

  /** `s.strip(c)` for a single character `c`. */
  function StripChar(s: string, c: char): (r: string)
    ensures |r| <= |s|
    ensures r == [] || (r[0] != c && r[|r| - 1] != c)
    ensures Contains(s, r)
    decreases |s|
  {
    if s == [] then
      ContainsSlice(s, 0, 0);
      s
    else if s[0] == c then
      var r := StripChar(s[1..], c);
      assert s[1..|s|] == s[1..];
      ContainsSlice(s, 1, |s|);
      ContainsTransitive(s, s[1..], r);
      r
    else if s[|s| - 1] == c then
      var r := StripChar(s[..|s| - 1], c);
      ContainsSlice(s, 0, |s| - 1);
      assert s[0..|s| - 1] == s[..|s| - 1];
      ContainsTransitive(s, s[..|s| - 1], r);
      r
    else
      ContainsSlice(s, 0, |s|);
      assert s[0..|s|] == s;
      s
  }

  /** Trimming survives a dropped character put in front. */
  lemma TrimmedAfterDropped(s: string, r: string, a: nat, drop: char -> bool)
    requires s != [] && drop(s[0]) && TrimmedAt(s[1..], r, a, drop)
    ensures TrimmedAt(s, r, a + 1, drop)
  {
    forall i | 0 < i < |s|
      ensures s[i] == s[1..][i - 1]
    {
    }
    assert s[a + 1..a + 1 + |r|] == s[1..][a..a + |r|];
  }

  /** Trimming survives a dropped character put at the end. */
  lemma TrimmedBeforeDropped(s: string, r: string, a: nat, drop: char -> bool)
    requires s != [] && drop(s[|s| - 1]) && TrimmedAt(s[..|s| - 1], r, a, drop)
    ensures TrimmedAt(s, r, a, drop)
  {
    var p := s[..|s| - 1];
    forall i | 0 <= i < |s| - 1
      ensures s[i] == p[i]
    {
    }
    assert s[a..a + |r|] == p[a..a + |r|];
  }

  /** `StripChar` removes every `c` at either end and nothing else. */
  lemma {:induction false} StripCharTrims(s: string, c: char)
    decreases |s|
    ensures exists a: nat :: TrimmedAt(s, StripChar(s, c), a, Is(c))
  {
    var r := StripChar(s, c);
    if s == [] {
      assert TrimmedAt(s, r, 0, Is(c));
    } else if s[0] == c {
      StripCharTrims(s[1..], c);
      var a: nat :| TrimmedAt(s[1..], r, a, Is(c));
      TrimmedAfterDropped(s, r, a, Is(c));
    } else if s[|s| - 1] == c {
      StripCharTrims(s[..|s| - 1], c);
      var a: nat :| TrimmedAt(s[..|s| - 1], r, a, Is(c));
      TrimmedBeforeDropped(s, r, a, Is(c));
    } else {
      assert s[0..|s|] == s;
      assert TrimmedAt(s, r, 0, Is(c));
    }
  }

  /** `s.strip(c)` is the one text left once every `c` at either end is removed. */
  lemma StripCharExact(s: string, c: char, r: string)
    ensures r == StripChar(s, c) <==> exists a: nat :: TrimmedAt(s, r, a, Is(c))
  {
    StripCharTrims(s, c);
    var a: nat :| TrimmedAt(s, StripChar(s, c), a, Is(c));
    if b: nat :| TrimmedAt(s, r, b, Is(c)) {
      TrimmedUnique(s, r, b, StripChar(s, c), a, Is(c));
    }
  }

  /** `target` occurs at `i` and nowhere before. */
  predicate FirstAt(s: string, target: string, i: nat) {
    OccursAt(s, target, i) && forall j :: 0 <= j < i ==> !OccursAt(s, target, j)
  }

  /** `s.replace(target, replacement, 1)`: the first occurrence of a non-empty `target` replaced. */
  function ReplaceFirst(s: string, target: string, replacement: string): (r: string)
    requires target != []
    ensures !Contains(s, target) ==> r == s
    ensures Contains(s, target) ==> |r| == |s| - |target| + |replacement|
    ensures Contains(s, target) ==>
              exists i: nat :: FirstAt(s, target, i) && r == s[..i] + replacement + s[i + |target|..]
  {
    FindAgreesWithContains(s, target);
    var i := FindFrom(s, target, 0);
    if i == -1 then s
    else
      assert FirstAt(s, target, i);
      s[..i] + replacement + s[i + |target|..]
  }

  /** `sep.join(parts)` */
  function Join(parts: seq<string>, sep: string): (r: string)
    ensures parts == [] ==> r == []
    ensures |parts| == 1 ==> r == parts[0]
  {
    if parts == [] then []
    else if |parts| == 1 then parts[0]
    else parts[0] + sep + Join(parts[1..], sep)
  }

  /** `s` holds no line boundary. */
  predicate OneLine(s: string) {
    forall j :: 0 <= j < |s| ==> !IsLineBreak(s[j])
  }

  /** The first line of `s` ends at `k` when `k` is the first boundary. */
  lemma LineEndAt(s: string, k: nat)
    requires k <= |s| && OneLine(s[..k]) && (k < |s| ==> IsLineBreak(s[k]))
    ensures LineEnd(s, 0) == k
  {
    forall j | 0 <= j < k
      ensures !IsLineBreak(s[j])
    {
      assert s[..k][j] == s[j];
    }
  }

  /** `"\n".join(lines).splitlines()` gives the lines back when none holds a
      line boundary and the last is not empty. */
  lemma {:induction false} SplitLinesOfJoin(lines: seq<string>)
    requires forall i :: 0 <= i < |lines| ==> OneLine(lines[i])
    requires lines == [] || lines[|lines| - 1] != []
    ensures SplitLines(Join(lines, "\n")) == lines
    decreases |lines|
  {
    if |lines| == 1 {
      LineEndAt(lines[0], |lines[0]|);
    } else if |lines| >= 2 {
      var s := Join(lines, "\n");
      var k := |lines[0]|;
      var rest := Join(lines[1..], "\n");
      assert s == lines[0] + "\n" + rest;
      assert s[..k] == lines[0];
      assert s[k] == '\n';
      LineEndAt(s, k);
      assert BoundaryEnd(s, k) == k + 1;
      assert s[k + 1..] == rest;
      SplitLinesOfJoin(lines[1..]);
    }
  }
}
