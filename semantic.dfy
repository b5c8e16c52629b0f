/** The strict semantic gate of data/semantic_checker.py: does a generated
    script address its instruction and input? Rules are tried in order and
    the first that fails gives the rejection reason. */
module Semantic {
  import opened Text
  import opened Urls
  import opened Rules
  import opened Store
  import Batch

  const InputPath := "data/generated.jsonl"
  const FinalPath := "data/final_dataset.jsonl"
  const RejectedPath := "data/failed_outputs/errors.jsonl"

  const NoImportReason := "Script tidak mengimpor modul apa pun"
  const NoRequestsReason := "Permintaan HTTP tapi modul 'requests' tidak digunakan"
  const NoGetPostReason := "Permintaan HTTP tapi tidak ada metode GET/POST"
  const NoWeb3Reason := "Instruksi menyebut 'Web3' atau 'swap' tapi tidak ditemukan penggunaan Web3"
  const NoInputCallReason := "Instruksi menyebut input, tapi tidak ditemukan penggunaan input()"
  const NoStructureReason := "Tidak ada fungsi atau kelas yang didefinisikan"

  function MissingUrlReason(url: string): string {
    "URL '" + url + "' tidak ditemukan di script"
  }

  /** The gate's rules in evaluation order, on the lower-cased instruction and
      input and the raw output: the checks of `CheckSemanticCompatibility`
      in the order its if-chain makes them, one rule per early return. */
  function CompatibilityRules(instruction: string, input: string, output: string): seq<Rule> {
    var instr := Lower(instruction);
    var inp := Lower(input);
    var urls := FindUrls(inp, AnyNonSpace);
    var missing := FirstMissing(urls, output);
    [ Rule(!StartsWith(Strip(output), "import"), NoImportReason),
      Rule(Contains(inp, "http") && !Contains(output, "requests"), NoRequestsReason),
      Rule(Contains(inp, "http") && !Contains(output, "requests.get") && !Contains(output, "requests.post"), NoGetPostReason),
      Rule((Contains(inp, "web3") || Contains(instr, "swap")) && !Contains(Lower(output), "web3"), NoWeb3Reason),
      Rule(Contains(inp, "input(") && !Contains(output, "input("), NoInputCallReason),
      Rule(!Contains(output, "def ") && !Contains(output, "class "), NoStructureReason),
      Rule(missing < |urls|, if missing < |urls| then MissingUrlReason(urls[missing]) else "")
    ]
  }

  /** What an accepted script satisfies, stated declaratively. */
  predicate Compatible(instruction: string, input: string, output: string) {
    var instr := Lower(instruction);
    var inp := Lower(input);
    && StartsWith(Strip(output), "import")
    && (Contains(inp, "http") ==>
          Contains(output, "requests") && (Contains(output, "requests.get") || Contains(output, "requests.post")))
    && ((Contains(inp, "web3") || Contains(instr, "swap")) ==> Contains(Lower(output), "web3"))
    && (Contains(inp, "input(") ==> Contains(output, "input("))
    && (Contains(output, "def ") || Contains(output, "class "))
    && forall u :: u in FindUrls(inp, AnyNonSpace) ==> Contains(output, u)
  }

  /** `check_semantic_compatibility(sample)`: early returns in rule order. */
  function CheckSemanticCompatibility(instruction: string, input: string, output: string): (v: Verdict)
    ensures v.Fail? ==> v.reason != ""
  {
    var instr := Lower(instruction);
    var inp := Lower(input);
    var code := output;
    if !StartsWith(Strip(code), "import") then Fail(NoImportReason)
    else if Contains(inp, "http") && !Contains(code, "requests") then Fail(NoRequestsReason)
    else if Contains(inp, "http") && !Contains(code, "requests.get") && !Contains(code, "requests.post") then Fail(NoGetPostReason)
    else if (Contains(inp, "web3") || Contains(instr, "swap")) && !Contains(Lower(code), "web3") then Fail(NoWeb3Reason)
    else if Contains(inp, "input(") && !Contains(code, "input(") then Fail(NoInputCallReason)
    else if !Contains(code, "def ") && !Contains(code, "class ") then Fail(NoStructureReason)
    else
      var urls := FindUrls(inp, AnyNonSpace);
      var k := FirstMissing(urls, code);
      if k < |urls| then Fail(MissingUrlReason(urls[k])) else Pass
  }

  /** The early returns agree with the rule table read in order. The table
      is the same if-chain written as a list, so this lemma only links the
      two readings; what the gate accepts is stated against an independent
      predicate in `CompatibilityPassIff`. */
  lemma CompatibilityFollowsRules(instruction: string, input: string, output: string)
    ensures CheckSemanticCompatibility(instruction, input, output)
            == FirstFailure(CompatibilityRules(instruction, input, output))
  {
    FirstFailureOfSeven(CompatibilityRules(instruction, input, output));
  }

  /** The gate passes exactly the compatible scripts. */
  lemma CompatibilityPassIff(instruction: string, input: string, output: string)
    ensures CheckSemanticCompatibility(instruction, input, output).Pass? <==> Compatible(instruction, input, output)
  {
    var rules := CompatibilityRules(instruction, input, output);
    CompatibilityFollowsRules(instruction, input, output);
    FirstFailureMeaning(rules);
    var urls := FindUrls(Lower(input), AnyNonSpace);
    var k := FirstMissing(urls, output);
    if k == |urls| {
      assert forall u :: u in urls ==> Contains(output, u);
    } else {
      assert urls[k] in urls;
    }
  }

  /** The rule order: which failure is reported when several rules fail. */
  lemma CompatibilityRuleOrder(instruction: string, input: string, output: string)
    ensures !StartsWith(Strip(output), "import") ==>
      CheckSemanticCompatibility(instruction, input, output) == Fail(NoImportReason)
    ensures StartsWith(Strip(output), "import") && Contains(Lower(input), "http") && Contains(output, "requests")
            && !Contains(output, "requests.get") && !Contains(output, "requests.post") ==>
      CheckSemanticCompatibility(instruction, input, output) == Fail(NoGetPostReason)
  {
  }

  /** A URL rejection names the first URL of the input, in input order, that
      the script lacks; every earlier URL is present. */
  lemma MissingUrlIsFirst(instruction: string, input: string, output: string)
    requires var v := CheckSemanticCompatibility(instruction, input, output);
             v.Fail? && v.reason != NoImportReason && v.reason != NoRequestsReason
             && v.reason != NoGetPostReason && v.reason != NoWeb3Reason
             && v.reason != NoInputCallReason && v.reason != NoStructureReason
    ensures var urls := FindUrls(Lower(input), AnyNonSpace);
            exists k :: 0 <= k < |urls|
              && CheckSemanticCompatibility(instruction, input, output) == Fail(MissingUrlReason(urls[k]))
              && !Contains(output, urls[k])
              && (forall j :: 0 <= j < k ==> Contains(output, urls[j]))
  {
    var rules := CompatibilityRules(instruction, input, output);
    CompatibilityFollowsRules(instruction, input, output);
    var v := FirstFailure(rules);
    forall j | 0 <= j < |rules| - 1 ensures v.reason != rules[j].reason {
      assert j == 0 || j == 1 || j == 2 || j == 3 || j == 4 || j == 5;
    }
    FailureAtLast(rules);
    var urls := FindUrls(Lower(input), AnyNonSpace);
    var k := FirstMissing(urls, output);
    assert rules[6] == Rule(k < |urls|, if k < |urls| then MissingUrlReason(urls[k]) else "");
  }

  /** `run_semantic_checker()`: a missing input file leaves every file as
      it is; a line that raises leaves every file as it is; otherwise the
      final file is overwritten with the accepted records and the rejected
      file with the tagged rejected ones. */
  method RunSemanticChecker(fs: FileSystem)
    modifies fs
    ensures InputPath !in old(fs.files) ==> fs.files == old(fs.files)
    ensures InputPath in old(fs.files) && !Batch.Readable(old(fs.files)[InputPath]) ==> fs.files == old(fs.files)
    ensures InputPath in old(fs.files) && Batch.Readable(old(fs.files)[InputPath]) ==>
      fs.files == old(fs.files)
        [FinalPath := AsLines(Batch.AcceptedOf(old(fs.files)[InputPath], CheckSemanticCompatibility))]
        [RejectedPath := AsLines(Batch.RejectedOf(old(fs.files)[InputPath], CheckSemanticCompatibility))]
  {
    if InputPath !in fs.files {
      return;
    }
    var crashed, finalData, rejectedData, total := Batch.Partition(fs.files[InputPath], CheckSemanticCompatibility);
    if crashed {
      return;
    }
    fs.Overwrite(FinalPath, finalData);
    fs.Overwrite(RejectedPath, rejectedData);
  }
}
