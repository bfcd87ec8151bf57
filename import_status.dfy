/** The ImportStatus enum and its process exit codes. */
module ImportStatuses {

  datatype ImportStatus = Success | PartialFailure | Failed

  /** The string backing value of a case. */
  function Value(s: ImportStatus): string {
    match s
    case Success => "success"
    case PartialFailure => "partial_failure"
    case Failed => "failed"
  }

  /** getExitCode(): Success 0, PartialFailure 1, Failed 2. */
  function ExitCode(s: ImportStatus): (code: int)
    ensures 0 <= code <= 2
    ensures code == 0 <==> s == Success
    ensures code == 2 <==> s == Failed
  {
    match s
    case Success => 0
    case PartialFailure => 1
    case Failed => 2
  }

  /** Distinct statuses have distinct exit codes and backing values. */
  lemma ExitCodeInjective(s1: ImportStatus, s2: ImportStatus)
    ensures ExitCode(s1) == ExitCode(s2) ==> s1 == s2
    ensures Value(s1) == Value(s2) ==> s1 == s2
  {
    if Value(s1) == Value(s2) {
      assert |Value(s1)| == |Value(s2)|;
      assert Value(s1)[0] == Value(s2)[0];
    }
  }
}
