/** Ordered rule lists: a gate is a sequence of (violated, reason) rules and
    its verdict is the reason of the first violated rule. */
module Rules {

  /** `(True, None)` or `(False, reason)`. */
  datatype Verdict = Pass | Fail(reason: string)

  /** One rule of a gate, already evaluated on a sample. */
  datatype Rule = Rule(violated: bool, reason: string)

  /** Index of the first violated rule, or `|rules|` when none is. */
  function FirstViolated(rules: seq<Rule>): (k: nat)
    ensures k <= |rules|
    ensures forall j :: 0 <= j < k ==> !rules[j].violated
    ensures k < |rules| ==> rules[k].violated
  {
    if rules == [] then 0
    else if rules[0].violated then 0
    else 1 + FirstViolated(rules[1..])
  }

  /** The verdict of an ordered rule list: the first violated rule wins. */
  function FirstFailure(rules: seq<Rule>): Verdict {
    var k := FirstViolated(rules);
    if k == |rules| then Pass else Fail(rules[k].reason)
  }

  /** A rule list passes exactly when no rule is violated, and a failure
      carries the reason of a violated rule preceded only by satisfied ones. */
  lemma FirstFailureMeaning(rules: seq<Rule>)
    ensures FirstFailure(rules).Pass? <==> forall j :: 0 <= j < |rules| ==> !rules[j].violated
    ensures FirstFailure(rules).Fail? ==>
      exists k :: 0 <= k < |rules| && rules[k].violated && FirstFailure(rules).reason == rules[k].reason
                  && forall j :: 0 <= j < k ==> !rules[j].violated
  {
  }

  /** A failure whose reason is that of no earlier rule comes from the last rule. */
  lemma FailureAtLast(rules: seq<Rule>)
    requires FirstFailure(rules).Fail?
    requires forall j :: 0 <= j < |rules| - 1 ==> FirstFailure(rules).reason != rules[j].reason
    ensures |rules| > 0 && FirstViolated(rules) == |rules| - 1
  {
    var k := FirstViolated(rules);
    assert FirstFailure(rules).reason == rules[k].reason;
  }

  /** A six-rule list read in order. */
  lemma {:induction false} FirstFailureOfSix(rules: seq<Rule>)
    requires |rules| == 6
    ensures FirstFailure(rules) ==
      if rules[0].violated then Fail(rules[0].reason)
      else if rules[1].violated then Fail(rules[1].reason)
      else if rules[2].violated then Fail(rules[2].reason)
      else if rules[3].violated then Fail(rules[3].reason)
      else if rules[4].violated then Fail(rules[4].reason)
      else if rules[5].violated then Fail(rules[5].reason)
      else Pass
  {
    var k := FirstViolated(rules);
    if k < 6 {
      assert rules[k].violated;
    }
  }

  /** A seven-rule list read in order. */
  lemma {:induction false} FirstFailureOfSeven(rules: seq<Rule>)
    requires |rules| == 7
    ensures FirstFailure(rules) ==
      if rules[0].violated then Fail(rules[0].reason)
      else if rules[1].violated then Fail(rules[1].reason)
      else if rules[2].violated then Fail(rules[2].reason)
      else if rules[3].violated then Fail(rules[3].reason)
      else if rules[4].violated then Fail(rules[4].reason)
      else if rules[5].violated then Fail(rules[5].reason)
      else if rules[6].violated then Fail(rules[6].reason)
      else Pass
  {
    var k := FirstViolated(rules);
    if k < 7 {
      assert rules[k].violated;
    }
  }
}
