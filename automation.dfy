/** The lenient "automation" gate of semantic_checker_automation.py: the
    script must be more than a stub, show some automation activity and
    structure, use the URLs its input names and, for swap/Web3 tasks, Web3. */
module Automation {
  import opened Text
  import opened Urls
  import opened Rules
  import opened Store
  import Batch

  const InputPath := "data/generated.jsonl"
  const FinalPath := "data/final_dataset_soft.jsonl"
  const RejectedPath := "data/failed_outputs/errors.jsonl"

  /** `automation_keywords` */
  const AutomationKeywords: seq<string> := [
    "requests", "aiohttp", "httpx", "selenium", "web3", "pyautogui", "pyppeteer", "undetected_chromedriver",
    "sign", "claim", "swap", "trigger", "button", "submit", "task", "schedule"
  ]

  /** The markers of functional structure the gate looks for. */
  const StructureMarkers: seq<string> := ["def ", "class ", "requests.", "async def", "await", "web3.", "selenium."]

  const TooShortReason := "Output terlalu pendek atau kosong"
  const EmptyFunctionReason := "Fungsi kosong dengan pass"
  const NoAutomationReason := "Tidak ditemukan aktivitas automation dalam kode"
  const NoStructureReason := "Tidak ada struktur logis seperti fungsi, kelas, atau action"
  const NoWeb3Reason := "Instruksi menyebut 'swap' atau 'Web3' tapi tidak ada penggunaan Web3"

  function UnusedUrlReason(url: string): string {
    "URL " + url + " disebut tapi tidak digunakan dalam kode"
  }

  /** `any(w in text for w in words)` */
  predicate MentionsAny(text: string, words: seq<string>) {
    words != [] && (Contains(text, words[0]) || MentionsAny(text, words[1..]))
  }

  /** `MentionsAny` is `any(...)`: some word of the list occurs in the text. */
  lemma {:induction false} MentionsAnyMeaning(text: string, words: seq<string>)
    ensures MentionsAny(text, words) <==> exists k :: 0 <= k < |words| && Contains(text, words[k])
  {
    if words != [] {
      MentionsAnyMeaning(text, words[1..]);
      if !Contains(text, words[0]) && (exists k :: 0 <= k < |words| && Contains(text, words[k])) {
        var k :| 0 <= k < |words| && Contains(text, words[k]);
        assert words[1..][k - 1] == words[k];
      }
    }
  }

  /** The gate's rules in evaluation order, on the lower-cased instruction
      and input and the stripped output: the checks of
      `CheckSemanticForAutomation` in the order its if-chain makes them, one
      rule per early return. */
  function AutomationRules(instruction: string, input: string, output: string): seq<Rule> {
    var instr := Lower(instruction);
    var inp := Lower(input);
    var code := Strip(output);
    var lineCount := |SplitLines(code)|;
    var urls := FindUrls(inp, NoSpaceNoQuote);
    var missing := FirstMissing(urls, code);
    [ Rule(code == [] || lineCount < 2, TooShortReason),
      Rule(Contains(code, "pass") && Contains(code, "def") && lineCount <= 5, EmptyFunctionReason),
      Rule(!MentionsAny(Lower(code), AutomationKeywords), NoAutomationReason),
      Rule(!MentionsAny(code, StructureMarkers), NoStructureReason),
      Rule(Contains(inp, "http") && missing < |urls|, if missing < |urls| then UnusedUrlReason(urls[missing]) else ""),
      Rule((Contains(instr, "swap") || Contains(inp, "web3")) && !Contains(Lower(code), "web3"), NoWeb3Reason)
    ]
  }

  /** What an accepted script satisfies, stated declaratively. */
  predicate Automated(instruction: string, input: string, output: string) {
    var code := Strip(output);
    var inp := Lower(input);
    && |SplitLines(code)| >= 2
    && !(Contains(code, "pass") && Contains(code, "def") && |SplitLines(code)| <= 5)
    && MentionsAny(Lower(code), AutomationKeywords)
    && MentionsAny(code, StructureMarkers)
    && (forall u :: u in FindUrls(inp, NoSpaceNoQuote) ==> Contains(code, u))
    && ((Contains(Lower(instruction), "swap") || Contains(inp, "web3")) ==> Contains(Lower(code), "web3"))
  }

  /** `check_semantic_for_automation(sample)`: early returns in rule order. */
  function CheckSemanticForAutomation(instruction: string, input: string, output: string): (v: Verdict)
    ensures v.Fail? ==> v.reason != ""
    ensures v.Pass? ==> |SplitLines(Strip(output))| >= 2
  {
    var instr := Lower(instruction);
    var inp := Lower(input);
    var code := Strip(output);
    var lineCount := |SplitLines(code)|;
    var urls := FindUrls(inp, NoSpaceNoQuote);
    var k := FirstMissing(urls, code);
    if code == [] || lineCount < 2 then Fail(TooShortReason)
    else if Contains(code, "pass") && Contains(code, "def") && lineCount <= 5 then Fail(EmptyFunctionReason)
    else if !MentionsAny(Lower(code), AutomationKeywords) then Fail(NoAutomationReason)
    else if !MentionsAny(code, StructureMarkers) then Fail(NoStructureReason)
    else if Contains(inp, "http") && k < |urls| then Fail(UnusedUrlReason(urls[k]))
    else if (Contains(instr, "swap") || Contains(inp, "web3")) && !Contains(Lower(code), "web3") then Fail(NoWeb3Reason)
    else Pass
  }

  /** The early returns agree with the rule table read in order. The table
      is the same if-chain written as a list, so this lemma only links the
      two readings; what the gate accepts is stated against an independent
      predicate in `AutomationPassIff`. */
  lemma AutomationFollowsRules(instruction: string, input: string, output: string)
    ensures CheckSemanticForAutomation(instruction, input, output)
            == FirstFailure(AutomationRules(instruction, input, output))
  {
    FirstFailureOfSix(AutomationRules(instruction, input, output));
  }

  /** The gate passes exactly the scripts that meet every rule. */
  lemma AutomationPassIff(instruction: string, input: string, output: string)
    ensures CheckSemanticForAutomation(instruction, input, output).Pass? <==> Automated(instruction, input, output)
  {
    AutomationFollowsRules(instruction, input, output);
    var rules := AutomationRules(instruction, input, output);
    FirstFailureMeaning(rules);
    var inp := Lower(input);
    var code := Strip(output);
    var urls := FindUrls(inp, NoSpaceNoQuote);
    var k := FirstMissing(urls, code);
    if k < |urls| {
      assert urls[k] in urls;
      UrlsMentionHttp(inp, NoSpaceNoQuote);
    } else {
      assert forall u :: u in urls ==> Contains(code, u);
    }
  }

  /** The `"http" in input_text` guard of the URL rule never changes the
      verdict: a URL can only be scanned from a text that mentions `http`. */
  lemma UrlGuardRedundant(input: string, code: string)
    ensures var urls := FindUrls(Lower(input), NoSpaceNoQuote);
            (Contains(Lower(input), "http") && FirstMissing(urls, code) < |urls|)
            == (FirstMissing(urls, code) < |urls|)
  {
    var urls := FindUrls(Lower(input), NoSpaceNoQuote);
    if urls != [] {
      UrlsMentionHttp(Lower(input), NoSpaceNoQuote);
    }
  }

  /** `run_semantic_checker_automation()`: like the strict driver, with the
      automation gate and its own final file. */
  method RunSemanticCheckerAutomation(fs: FileSystem)
    modifies fs
    ensures InputPath !in old(fs.files) ==> fs.files == old(fs.files)
    ensures InputPath in old(fs.files) && !Batch.Readable(old(fs.files)[InputPath]) ==> fs.files == old(fs.files)
    ensures InputPath in old(fs.files) && Batch.Readable(old(fs.files)[InputPath]) ==>
      fs.files == old(fs.files)
        [FinalPath := AsLines(Batch.AcceptedOf(old(fs.files)[InputPath], CheckSemanticForAutomation))]
        [RejectedPath := AsLines(Batch.RejectedOf(old(fs.files)[InputPath], CheckSemanticForAutomation))]
  {
    if InputPath !in fs.files {
      return;
    }
    var crashed, finalData, rejectedData, total := Batch.Partition(fs.files[InputPath], CheckSemanticForAutomation);
    if crashed {
      return;
    }
    fs.Overwrite(FinalPath, finalData);
    fs.Overwrite(RejectedPath, rejectedData);
  }
}
