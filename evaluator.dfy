/** The sandboxed executor of scripts/evaluator.py, reduced to how it turns
    the subprocess's outcome into a result. Writing the temporary file,
    spawning `python` with a timeout and removing the file are not modelled:
    what the subprocess did is the input. */
module Evaluator {

  /** `{"success", "stdout", "stderr"}` */
  datatype ExecResult = ExecResult(success: bool, stdout: string, stderr: string)

  /** What became of the subprocess. */
  datatype ProcessOutcome =
    | Exited(returnCode: int, out: string, err: string)
    | TimedOut
    | Errored(message: string)

  const TimeoutMessage := "Script execution timed out."

  /** `evaluate_script(script_code)` given the subprocess's outcome. */
  function EvaluateScript(outcome: ProcessOutcome): (r: ExecResult)
    ensures r.success <==> outcome.Exited? && outcome.returnCode == 0
    ensures outcome.Exited? ==> r.stdout == outcome.out && r.stderr == outcome.err
    ensures outcome.TimedOut? ==> r.stdout == "" && r.stderr == TimeoutMessage
    ensures outcome.Errored? ==> r.stdout == "" && r.stderr == "Unexpected error: " + outcome.message
  {
    match outcome
    case Exited(code, out, err) => ExecResult(code == 0, out, err)
    case TimedOut => ExecResult(false, "", TimeoutMessage)
    case Errored(message) => ExecResult(false, "", "Unexpected error: " + message)
  }
}
