/** The daemon's task handler after judging: the catch block that records a
    thrown error, and `postProcess`, the status resolution actually applied
    before the final report. */
module Daemon {
  import opened Wrappers
  import opened JudgeTask

  /** The explicit switch of `postProcess`: each of the ten failure case
      statuses to its judge-level counterpart; the other four to nothing. */
  function Counterpart(c: CaseStatus): (r: Option<JudgeStateStatus>)
    ensures r.None? <==> c.Accepted? || c.Skipped? || c.Pending? || c.Judging?
    ensures r.Some? && !c.SystemError? ==> r.value.Value() == c.Value()
    ensures c.SystemError? ==> r == Some(JudgeStateStatus.SystemError)
  {
    match c
    case WrongAnswer => Some(JudgeStateStatus.WrongAnswer)
    case PartiallyCorrect => Some(JudgeStateStatus.PartiallyCorrect)
    case MemoryLimitExceeded => Some(JudgeStateStatus.MemoryLimitExceeded)
    case TimeLimitExceeded => Some(JudgeStateStatus.TimeLimitExceeded)
    case OutputLimitExceeded => Some(JudgeStateStatus.OutputLimitExceeded)
    case FileError => Some(JudgeStateStatus.FileError)
    case RuntimeError => Some(JudgeStateStatus.RuntimeError)
    case JudgementFailed => Some(JudgeStateStatus.JudgementFailed)
    case InvalidInteraction => Some(JudgeStateStatus.InvalidInteraction)
    case SystemError => Some(JudgeStateStatus.SystemError)
    case Accepted | Skipped | Pending | Judging => None
  }

  /** What one case writes during the `postProcess` pass, if anything. */
  function PostProcessPick(c: CaseStatus): (r: Option<string>)
    ensures r.None? <==> c.Accepted? || c.Skipped? || c.Pending? || c.Judging?
    ensures r.Some? && !c.SystemError? ==> r.value == c.Value()
    ensures c.SystemError? ==> r == Some("System Error")
  {
    match Counterpart(c)
    case Some(s) => Some(s.Value())
    case None => None
  }

  lemma PostProcessPickNeverJudging()
    ensures NeverJudging(PostProcessPick)
  {
    forall c: CaseStatus
      ensures PostProcessPick(c).Some? ==> PostProcessPick(c).value != JudgeStateStatus.Judging.Value()
    {
    }
  }

  /** `postProcess`: only the judge status changes; Accepted when every case
      is, else the counterpart of the last failing case, else the fallback
      (a leftover Judging becomes System Error). */
  function PostProcess(t: Task): (r: Task)
    ensures r == t.(judgeState := t.judgeState.(status := r.judgeState.status))
    ensures r.judgeState.status != JudgeStateStatus.Judging.Value()
    ensures AllAccepted(Cases(t.judgeState.subtasks)) ==> r.judgeState.status == JudgeStateStatus.Accepted.Value()
    ensures !AllAccepted(Cases(t.judgeState.subtasks)) ==>
      r.judgeState.status == (match LastPicked(Cases(t.judgeState.subtasks), PostProcessPick)
                              case Some(v) => v
                              case None => Fallback(t.judgeState.status))
  {
    PostProcessPickNeverJudging();
    var js := t.judgeState;
    t.(judgeState := js.(status := Resolve(Cases(js.subtasks), PostProcessPick, js.status)))
  }

  /** Pending, Judging and Skipped cases never change what the
      `postProcess` loop writes. Inserted anywhere, such a case leaves the
      resolved status unchanged unless every other case is Accepted; then
      the status falls back on the prior one instead of Accepted. */
  lemma PostProcessIgnores(t: Task, t': Task, front: seq<CaseState>, c: CaseState, back: seq<CaseState>)
    requires c.caseStatus.Pending? || c.caseStatus.Judging? || c.caseStatus.Skipped?
    requires Cases(t.judgeState.subtasks) == front + [c] + back && Cases(t'.judgeState.subtasks) == front + back
    requires t.judgeState.status == t'.judgeState.status
    ensures LastPicked(front + [c] + back, PostProcessPick) == LastPicked(front + back, PostProcessPick)
    ensures !AllAccepted(front + back) ==> PostProcess(t).judgeState.status == PostProcess(t').judgeState.status
    ensures AllAccepted(front + back) ==> PostProcess(t).judgeState.status == Fallback(t.judgeState.status)
  {
    LastPickedIgnores(front, c, back, PostProcessPick);
    AllAcceptedInsert(front, c, back);
    if AllAccepted(front + back) {
      LastPickedIsLast(front + back, PostProcessPick);
    }
  }

  /** The two resolutions agree on statuses whenever no case is Pending,
      Judging or SystemError: the other failure strings coincide. */
  lemma PostProcessMatchesGetStatus(t: Task)
    requires forall c | c in Cases(t.judgeState.subtasks) ::
      !c.caseStatus.Pending? && !c.caseStatus.Judging? && !c.caseStatus.SystemError?
    ensures PostProcess(t).judgeState.status == GetStatus(t.judgeState).status
  {
    var cases := Cases(t.judgeState.subtasks);
    forall k | 0 <= k < |cases|
      ensures PostProcessPick(cases[k].caseStatus) == GetStatusPick(cases[k].caseStatus)
    {
      assert cases[k] in cases;
    }
    LastPickedAgree(cases, PostProcessPick, GetStatusPick);
  }

  /** Where they part: a lone SystemError case gives "SystemError" from
      `getStatus` but "System Error" from `postProcess`, and a lone Pending
      case gives System Error from `getStatus` but keeps the prior status
      in `postProcess`. */
  lemma PostProcessDiffersFromGetStatus(t: Task, c: CaseState)
    requires t.judgeState.subtasks == [SubtaskState(None, [c])]
    requires t.judgeState.status == JudgeStateStatus.Waiting.Value()
    ensures c.caseStatus.SystemError? ==>
      && GetStatus(t.judgeState).status == "SystemError"
      && PostProcess(t).judgeState.status == "System Error"
    ensures c.caseStatus.Pending? ==>
      && GetStatus(t.judgeState).status == "System Error"
      && PostProcess(t).judgeState.status == "Waiting"
  {
    var cases := Cases(t.judgeState.subtasks);
    assert cases == [c];
    LastPickedSingle(c, GetStatusPick);
    LastPickedSingle(c, PostProcessPick);
    if c.caseStatus.SystemError? {
      LoneSystemError(t, cases);
    } else if c.caseStatus.Pending? {
      LonePending(t, cases);
    }
  }

  lemma LoneSystemError(t: Task, cases: seq<CaseState>)
    requires cases == Cases(t.judgeState.subtasks) && !AllAccepted(cases)
    requires LastPicked(cases, GetStatusPick) == Some("SystemError")
    requires LastPicked(cases, PostProcessPick) == Some("System Error")
    ensures GetStatus(t.judgeState).status == "SystemError"
    ensures PostProcess(t).judgeState.status == "System Error"
  {
  }

  lemma LonePending(t: Task, cases: seq<CaseState>)
    requires cases == Cases(t.judgeState.subtasks) && !AllAccepted(cases)
    requires t.judgeState.status == "Waiting"
    requires LastPicked(cases, GetStatusPick) == Some("System Error")
    requires LastPicked(cases, PostProcessPick) == None
    ensures GetStatus(t.judgeState).status == "System Error"
    ensures PostProcess(t).judgeState.status == "Waiting"
  {
    assert JudgeStateStatus.Judging.Value() == "Judging";
    assert "Waiting"[0] != "Judging"[0];
    assert Fallback("Waiting") == "Waiting";
  }

  /** Starting from a genuine judge status, `postProcess` always ends on a
      genuine judge status (unlike `getStatus`): `s` is that status. */
  lemma PostProcessYieldsJudgeStatus(t: Task, prior: JudgeStateStatus) returns (s: JudgeStateStatus)
    requires t.judgeState.status == prior.Value()
    ensures s.Value() == PostProcess(t).judgeState.status
  {
    var cases := Cases(t.judgeState.subtasks);
    if AllAccepted(cases) {
      s := JudgeStateStatus.Accepted;
    } else {
      LastPickedIsLast(cases, PostProcessPick);
      if LastPicked(cases, PostProcessPick).Some? {
        var k :| 0 <= k < |cases| && PostProcessPick(cases[k].caseStatus) == LastPicked(cases, PostProcessPick);
        s := Counterpart(cases[k].caseStatus).value;
      } else if prior.Judging? {
        s := JudgeStateStatus.SystemError;
      } else {
        OnlyJudgingIsJudging(prior);
        s := prior;
      }
    }
  }

  /** The catch block of the task handler: the status is set directly (not
      through `setStatus`, so no case changes) and the message records the
      error text. */
  function OnJudgeError(t: Task, err: string): (r: Task)
    ensures r == t.(judgeState := r.judgeState)
    ensures r.judgeState.status == JudgeStateStatus.SystemError.Value()
    ensures r.judgeState.errorMessage == Some("An error occurred.\n" + err)
    ensures r.judgeState.subtasks == t.judgeState.subtasks
  {
    t.(judgeState := t.judgeState.(
      status := JudgeStateStatus.SystemError.Value(),
      errorMessage := Some("An error occurred.\n" + err)))
  }

  /** The task as reported: the task as judging left it, through the catch
      block when judging threw `thrown`, then through `postProcess`. */
  function Conclude(t: Task, thrown: Option<string>): (r: Task)
    ensures r.judgeState.subtasks == t.judgeState.subtasks
    ensures thrown.Some? ==> r.judgeState.errorMessage == Some("An error occurred.\n" + thrown.value)
    ensures thrown.None? ==> r.judgeState.errorMessage == t.judgeState.errorMessage
    ensures r.judgeState.status != JudgeStateStatus.Judging.Value()
  {
    PostProcess(if thrown.Some? then OnJudgeError(t, thrown.value) else t)
  }

  /** After a thrown error the reported status is System Error unless a case
      decides otherwise: all cases Accepted overwrite it with Accepted, and
      a failing case with its own counterpart. */
  lemma ConcludeAfterError(t: Task, err: string)
    ensures var cases := Cases(t.judgeState.subtasks);
      var s := Conclude(t, Some(err)).judgeState.status;
      && (AllAccepted(cases) ==> s == JudgeStateStatus.Accepted.Value())
      && (!AllAccepted(cases) && LastPicked(cases, PostProcessPick).None? ==> s == JudgeStateStatus.SystemError.Value())
      && (!AllAccepted(cases) && LastPicked(cases, PostProcessPick).Some? ==> s == LastPicked(cases, PostProcessPick).value)
  {
  }
}
