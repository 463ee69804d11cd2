/** The judge-task data model of the worker: the two status enumerations,
    the task → subtask → case state, `setStatus`, and the status resolution
    shared by `getStatus` and the daemon's `postProcess`. */
module JudgeTask {
  import opened Wrappers

  /** The overall verdict of a task. Each member carries the string it has at
      run time; `JudgeState.status` holds such a string. */
  datatype JudgeStateStatus =
    | Accepted | WrongAnswer | PartiallyCorrect | MemoryLimitExceeded
    | TimeLimitExceeded | OutputLimitExceeded | FileError | RuntimeError
    | JudgementFailed | InvalidInteraction
    | CompileError | NoTestdata | SystemError | Unknown
    | Waiting | Pending | Compiling | Judging
  {
    function Value(): string {
      match this
      case Accepted => "Accepted"
      case WrongAnswer => "Wrong Answer"
      case PartiallyCorrect => "Partially Correct"
      case MemoryLimitExceeded => "Memory Limit Exceeded"
      case TimeLimitExceeded => "Time Limit Exceeded"
      case OutputLimitExceeded => "Output Limit Exceeded"
      case FileError => "File Error"
      case RuntimeError => "Runtime Error"
      case JudgementFailed => "Judgement Failed"
      case InvalidInteraction => "Invalid Interaction"
      case CompileError => "Compile Error"
      case NoTestdata => "No Testdata"
      case SystemError => "System Error"
      case Unknown => "Unknown"
      case Waiting => "Waiting"
      case Pending => "Pending"
      case Compiling => "Compiling"
      case Judging => "Judging"
    }

    /** The judge-level failures that `setStatus` pushes down to every case. */
    predicate ForcesCaseFailure() {
      CompileError? || NoTestdata? || SystemError? || Unknown?
    }
  }

  /** The outcome of one testcase, with its run-time string. Note that
      `SystemError` is spelled without the space its judge-level namesake has. */
  datatype CaseStatus =
    | Accepted | WrongAnswer | PartiallyCorrect | MemoryLimitExceeded
    | TimeLimitExceeded | OutputLimitExceeded | FileError | RuntimeError
    | JudgementFailed | InvalidInteraction
    | Skipped | SystemError
    | Pending | Judging
  {
    function Value(): string {
      match this
      case Accepted => "Accepted"
      case WrongAnswer => "Wrong Answer"
      case PartiallyCorrect => "Partially Correct"
      case MemoryLimitExceeded => "Memory Limit Exceeded"
      case TimeLimitExceeded => "Time Limit Exceeded"
      case OutputLimitExceeded => "Output Limit Exceeded"
      case FileError => "File Error"
      case RuntimeError => "Runtime Error"
      case JudgementFailed => "Judgement Failed"
      case InvalidInteraction => "Invalid Interaction"
      case Skipped => "Skipped"
      case SystemError => "SystemError"
      case Pending => "Pending"
      case Judging => "Judging"
    }
  }

  /** Execution telemetry of one case (time and memory as reported). */
  datatype CaseDetail = CaseDetail(
    time: int,
    memory: int,
    input: Option<string>,
    output: Option<string>,
    userOutput: Option<string>,
    userError: Option<string>,
    spjMessage: Option<string>,
    systemMessage: Option<string>)

  datatype CaseState = CaseState(
    prefix: string,
    caseStatus: CaseStatus,
    errorMessage: Option<string>,
    detail: Option<CaseDetail>)

  /** A JavaScript number as far as scores need one: a finite value, or the
      NaN and +Infinity that averaging and minimising an empty list give. */
  datatype Number = Finite(value: real) | NaN | Infinity

  datatype SubtaskState = SubtaskState(score: Option<Number>, testcases: seq<CaseState>)

  datatype JudgeState = JudgeState(
    status: string,
    errorMessage: Option<string>,
    subtasks: seq<SubtaskState>)

  datatype Task = Task(
    priority: int,
    taskId: string,
    pid: string,
    code: string,
    lang: string,
    score: real,
    judgeState: JudgeState)

  /** A freshly constructed case: Pending, with no message and no detail. */
  function NewCaseState(prefix: string): (c: CaseState)
    ensures c.prefix == prefix && c.caseStatus == CaseStatus.Pending
    ensures c.errorMessage.None? && c.detail.None?
  {
    CaseState(prefix, CaseStatus.Pending, None, None)
  }

  /** A freshly constructed judge state: Waiting, with no subtasks. */
  function NewJudgeState(): (js: JudgeState)
    ensures js.status == JudgeStateStatus.Waiting.Value()
    ensures js.errorMessage.None? && js.subtasks == []
  {
    JudgeState(JudgeStateStatus.Waiting.Value(), None, [])
  }

  // ---------------------------------------------------------------------
  // Flattening the cases of all subtasks

  /** The cases of all subtasks in subtask-then-testcase order, built as the
      source's `reduce` with `concat` builds it. */
  function Cases(subtasks: seq<SubtaskState>): (r: seq<CaseState>)
    ensures forall i, j | 0 <= i < |subtasks| && 0 <= j < |subtasks[i].testcases| :: subtasks[i].testcases[j] in r
    ensures |subtasks| == 1 ==> r == subtasks[0].testcases
  {
    if |subtasks| == 0 then []
    else
      var n := |subtasks| - 1;
      var init := Cases(subtasks[..n]);
      assert forall i | 0 <= i < n :: subtasks[..n][i] == subtasks[i];
      init + subtasks[n].testcases
  }

  /** Flattening runs subtask after subtask: the cases of two subtask lists
      side by side are the cases of the first followed by those of the second. */
  lemma {:induction false} CasesAppend(a: seq<SubtaskState>, b: seq<SubtaskState>)
    ensures Cases(a + b) == Cases(a) + Cases(b)
  {
    if |b| == 0 {
      assert a + b == a;
    } else {
      var n := |b| - 1;
      var ab := a + b;
      assert ab[..|a| + n] == a + b[..n];
      assert ab[|a| + n] == b[n];
      CasesAppend(a, b[..n]);
      calc {
        Cases(ab);
        Cases(ab[..|a| + n]) + ab[|a| + n].testcases;
        Cases(a) + Cases(b[..n]) + b[n].testcases;
        Cases(a) + (Cases(b[..n]) + b[n].testcases);
        Cases(a) + Cases(b);
      }
    }
  }

  /** A case occurs in the flattened list exactly when some subtask holds it. */
  lemma {:induction false} InCases(subtasks: seq<SubtaskState>, c: CaseState)
    ensures c in Cases(subtasks) <==> exists i | 0 <= i < |subtasks| :: c in subtasks[i].testcases
  {
    if |subtasks| > 0 {
      var init := subtasks[..|subtasks| - 1];
      InCases(init, c);
      assert forall i | 0 <= i < |init| :: init[i] == subtasks[i];
      if c in subtasks[|subtasks| - 1].testcases {
        assert c in Cases(subtasks);
      }
    }
  }

  /** `every` over the cases: vacuously true when there are none. */
  predicate AllAccepted(cases: seq<CaseState>): (b: bool)
    ensures b <==> forall c | c in cases :: c.caseStatus == CaseStatus.Accepted
    ensures |cases| == 0 ==> b
  {
    forall k | 0 <= k < |cases| :: cases[k].caseStatus == CaseStatus.Accepted
  }

  // ---------------------------------------------------------------------
  // setStatus

  /** Every case of every subtask with its status overwritten to SystemError. */
  function MarkAllSystemError(subtasks: seq<SubtaskState>): (r: seq<SubtaskState>)
    ensures |r| == |subtasks|
    ensures forall i | 0 <= i < |r| ::
      && r[i].score == subtasks[i].score
      && |r[i].testcases| == |subtasks[i].testcases|
      && forall j | 0 <= j < |r[i].testcases| ::
           r[i].testcases[j] == subtasks[i].testcases[j].(caseStatus := CaseStatus.SystemError)
  {
    seq(|subtasks|, i requires 0 <= i < |subtasks| =>
      var cs := subtasks[i].testcases;
      subtasks[i].(testcases := seq(|cs|, j requires 0 <= j < |cs| =>
        cs[j].(caseStatus := CaseStatus.SystemError))))
  }

  /** `setStatus`: a judge-level failure first rewrites every case to
      SystemError; then the status is set, whatever it was. */
  function SetStatus(js: JudgeState, s: JudgeStateStatus): (r: JudgeState)
    ensures r.status == s.Value()
    ensures r.errorMessage == js.errorMessage
    ensures |r.subtasks| == |js.subtasks|
    ensures forall i | 0 <= i < |r.subtasks| ::
      && r.subtasks[i].score == js.subtasks[i].score
      && |r.subtasks[i].testcases| == |js.subtasks[i].testcases|
      && forall j | 0 <= j < |r.subtasks[i].testcases| ::
           var before, after := js.subtasks[i].testcases[j], r.subtasks[i].testcases[j];
           && after.prefix == before.prefix
           && after.errorMessage == before.errorMessage
           && after.detail == before.detail
           && after.caseStatus == (if s.ForcesCaseFailure() then CaseStatus.SystemError else before.caseStatus)
    ensures !s.ForcesCaseFailure() ==> r.subtasks == js.subtasks
  {
    if s.ForcesCaseFailure() then
      js.(subtasks := MarkAllSystemError(js.subtasks), status := s.Value())
    else
      js.(status := s.Value())
  }

  /** After a judge-level failure, the flattened case list holds nothing but
      SystemError cases. */
  lemma SetStatusFailsEveryCase(js: JudgeState, s: JudgeStateStatus)
    requires s.ForcesCaseFailure()
    ensures forall c | c in Cases(SetStatus(js, s).subtasks) :: c.caseStatus == CaseStatus.SystemError
  {
    var subs := SetStatus(js, s).subtasks;
    forall c | c in Cases(subs)
      ensures c.caseStatus == CaseStatus.SystemError
    {
      InCases(subs, c);
    }
  }

  // ---------------------------------------------------------------------
  // Status resolution

  /** Which status string one case writes during the resolution pass, if any. */
  type Pick = CaseStatus -> Option<string>

  /** The pick of the LAST case (in list order) that picks anything. */
  function LastPicked(cases: seq<CaseState>, pick: Pick): Option<string>
  {
    if |cases| == 0 then None
    else
      var last := pick(cases[|cases| - 1].caseStatus);
      if last.Some? then last else LastPicked(cases[..|cases| - 1], pick)
  }

  /** `LastPicked` characterised by position: None exactly when no case picks;
      otherwise it is the pick of a case after which no case picks. */
  lemma {:induction false} LastPickedIsLast(cases: seq<CaseState>, pick: Pick)
    ensures LastPicked(cases, pick).None? <==> forall k | 0 <= k < |cases| :: pick(cases[k].caseStatus).None?
    ensures LastPicked(cases, pick).Some? ==>
      exists k | 0 <= k < |cases| ::
        && pick(cases[k].caseStatus) == LastPicked(cases, pick)
        && forall j | k < j < |cases| :: pick(cases[j].caseStatus).None?
  {
    if |cases| > 0 {
      var n := |cases| - 1;
      var init := cases[..n];
      LastPickedIsLast(init, pick);
      assert forall k | 0 <= k < n :: init[k] == cases[k];
      if pick(cases[n].caseStatus).None? && LastPicked(init, pick).Some? {
        var k :| 0 <= k < |init| && pick(init[k].caseStatus) == LastPicked(init, pick)
                 && forall j | k < j < |init| :: pick(init[j].caseStatus).None?;
        assert pick(cases[k].caseStatus) == LastPicked(cases, pick);
      }
    }
  }

  /** A single case is resolved by its own pick. */
  lemma LastPickedSingle(c: CaseState, pick: Pick)
    ensures LastPicked([c], pick) == pick(c.caseStatus)
    ensures AllAccepted([c]) <==> c.caseStatus == CaseStatus.Accepted
  {
    assert [c][..0] == [];
    assert [c][0] == c;
  }

  /** Peeling the first case: the last pick of the rest wins when there is one. */
  lemma {:induction false} LastPickedFront(cases: seq<CaseState>, pick: Pick)
    requires |cases| > 0
    ensures LastPicked(cases, pick) ==
      (if LastPicked(cases[1..], pick).Some? then LastPicked(cases[1..], pick) else pick(cases[0].caseStatus))
  {
    var n := |cases| - 1;
    if n > 0 {
      assert cases[1..][..n - 1] == cases[..n][1..];
      assert cases[1..][n - 1] == cases[n];
      LastPickedFront(cases[..n], pick);
    }
  }

  /** The resolution loop: walk the cases front to back, letting every
      picking case overwrite the status. */
  function Scan(cases: seq<CaseState>, pick: Pick, status: string): (r: string)
    ensures r == LastPicked(cases, pick).GetOr(status)
    decreases |cases|
  {
    if |cases| == 0 then status
    else
      LastPickedFront(cases, pick);
      Scan(cases[1..], pick, pick(cases[0].caseStatus).GetOr(status))
  }

  /** A pick that never writes Judging, so the safety net only sees the prior status. */
  ghost predicate NeverJudging(pick: Pick) {
    forall c: CaseStatus :: pick(c).Some? ==> pick(c).value != JudgeStateStatus.Judging.Value()
  }

  /** Only Judging carries the string "Judging". */
  lemma OnlyJudgingIsJudging(s: JudgeStateStatus)
    ensures s.Value() == JudgeStateStatus.Judging.Value() <==> s.Judging?
  {
    match s
    case Judging =>
    case _ =>
  }

  /** The status kept when no case resolves anything: a leftover Judging
      becomes System Error, anything else stays. */
  function Fallback(prior: string): (r: string)
    ensures r != JudgeStateStatus.Judging.Value()
    ensures prior == JudgeStateStatus.Judging.Value() ==> r == JudgeStateStatus.SystemError.Value()
    ensures prior != JudgeStateStatus.Judging.Value() ==> r == prior
  {
    if prior == JudgeStateStatus.Judging.Value() then JudgeStateStatus.SystemError.Value() else prior
  }

  /** The resolution shared by `getStatus` and `postProcess`: Accepted when
      every case is, else the last picking case's status, else the fallback. */
  function Resolve(cases: seq<CaseState>, pick: Pick, prior: string): (r: string)
    requires NeverJudging(pick)
    ensures AllAccepted(cases) ==> r == JudgeStateStatus.Accepted.Value()
    ensures !AllAccepted(cases) ==>
      r == (match LastPicked(cases, pick)
            case Some(v) => v
            case None => Fallback(prior))
    ensures r != JudgeStateStatus.Judging.Value()
  {
    if AllAccepted(cases) then JudgeStateStatus.Accepted.Value()
    else
      LastPickedIsLast(cases, pick);
      var s := Scan(cases, pick, prior);
      if s == JudgeStateStatus.Judging.Value() then JudgeStateStatus.SystemError.Value() else s
  }

  /** Two picks that agree on every case give the same last pick. */
  lemma {:induction false} LastPickedAgree(cases: seq<CaseState>, p: Pick, q: Pick)
    requires forall k | 0 <= k < |cases| :: p(cases[k].caseStatus) == q(cases[k].caseStatus)
    ensures LastPicked(cases, p) == LastPicked(cases, q)
  {
    if |cases| > 0 {
      LastPickedAgree(cases[..|cases| - 1], p, q);
    }
  }

  /** The switch of `getStatus`: a failure or SystemError case writes its own
      string (the cast), a Pending or Judging case writes System Error. */
  function GetStatusPick(c: CaseStatus): (r: Option<string>)
    ensures r.None? <==> c.Accepted? || c.Skipped?
    ensures !c.Pending? && !c.Judging? && r.Some? ==> r.value == c.Value()
    ensures (c.Pending? || c.Judging?) ==> r == Some(JudgeStateStatus.SystemError.Value())
  {
    match c
    case Accepted | Skipped => None
    case Pending | Judging => Some(JudgeStateStatus.SystemError.Value())
    case _ => Some(c.Value())
  }

  lemma GetStatusPickNeverJudging()
    ensures NeverJudging(GetStatusPick)
  {
    forall c: CaseStatus
      ensures GetStatusPick(c).Some? ==> GetStatusPick(c).value != JudgeStateStatus.Judging.Value()
    {
      match c
      case Judging =>
      case _ =>
    }
  }

  /** `getStatus`: sets only the status, resolving it over the flattened cases. */
  function GetStatus(js: JudgeState): (r: JudgeState)
    ensures r.subtasks == js.subtasks && r.errorMessage == js.errorMessage
    ensures r.status != JudgeStateStatus.Judging.Value()
    ensures AllAccepted(Cases(js.subtasks)) ==> r.status == JudgeStateStatus.Accepted.Value()
    ensures !AllAccepted(Cases(js.subtasks)) ==>
      r.status == (match LastPicked(Cases(js.subtasks), GetStatusPick)
                   case Some(v) => v
                   case None => Fallback(js.status))
  {
    GetStatusPickNeverJudging();
    js.(status := Resolve(Cases(js.subtasks), GetStatusPick, js.status))
  }

  /** A case that picks nothing, inserted anywhere, leaves the last pick unchanged. */
  lemma {:induction false} LastPickedIgnores(front: seq<CaseState>, c: CaseState, back: seq<CaseState>, pick: Pick)
    requires pick(c.caseStatus).None?
    ensures LastPicked(front + [c] + back, pick) == LastPicked(front + back, pick)
  {
    if |back| == 0 {
      assert front + [c] + back == front + [c];
      assert (front + [c])[..|front|] == front;
      assert front + back == front;
    } else {
      var n := |back| - 1;
      assert (front + [c] + back)[..|front| + 1 + n] == front + [c] + back[..n];
      assert (front + back)[..|front| + n] == front + back[..n];
      LastPickedIgnores(front, c, back[..n], pick);
    }
  }

  /** Inserting one case into an otherwise all-Accepted list leaves it
      all-Accepted exactly when that case is Accepted, and a list with a
      non-Accepted case keeps one after any insertion. */
  lemma AllAcceptedInsert(front: seq<CaseState>, c: CaseState, back: seq<CaseState>)
    ensures AllAccepted(front + [c] + back) <==> AllAccepted(front + back) && c.caseStatus == CaseStatus.Accepted
  {
    var with, without := front + [c] + back, front + back;
    assert c in with;
    assert forall x | x in without :: x in with;
    assert forall x | x in with :: x == c || x in without;
  }

  /** Accepted and Skipped cases never change what the `getStatus` loop
      writes. An Accepted case inserted anywhere never changes the resolved
      status; a Skipped one changes it only when every other case is
      Accepted, and then the status falls back on the prior one. */
  lemma IgnoredCasesDoNotMatter(js: JudgeState, js': JudgeState, front: seq<CaseState>, c: CaseState, back: seq<CaseState>)
    requires c.caseStatus.Accepted? || c.caseStatus.Skipped?
    requires Cases(js.subtasks) == front + [c] + back && Cases(js'.subtasks) == front + back
    requires js.status == js'.status
    ensures LastPicked(front + [c] + back, GetStatusPick) == LastPicked(front + back, GetStatusPick)
    ensures c.caseStatus.Accepted? || !AllAccepted(front + back) ==> GetStatus(js).status == GetStatus(js').status
    ensures c.caseStatus.Skipped? && AllAccepted(front + back) ==> GetStatus(js).status == Fallback(js.status)
  {
    LastPickedIgnores(front, c, back, GetStatusPick);
    AllAcceptedInsert(front, c, back);
    if AllAccepted(front + back) {
      LastPickedIsLast(front + back, GetStatusPick);
    }
  }

  /** The cast at work: a lone SystemError case makes `getStatus` report the
      raw case string "SystemError", which no judge status carries. */
  lemma GetStatusReportsRawSystemError(prefix: string, prior: string)
    ensures var js := JudgeState(prior, None, [SubtaskState(None, [CaseState(prefix, CaseStatus.SystemError, None, None)])]);
      && GetStatus(js).status == "SystemError"
      && forall s: JudgeStateStatus :: s.Value() != GetStatus(js).status
  {
    var c := CaseState(prefix, CaseStatus.SystemError, None, None);
    var js := JudgeState(prior, None, [SubtaskState(None, [c])]);
    assert [SubtaskState(None, [c])][..0] == [];
    assert Cases(js.subtasks) == [c];
    assert [c][0].caseStatus == CaseStatus.SystemError;
    assert LastPicked([c], GetStatusPick) == Some("SystemError");
    forall s: JudgeStateStatus
      ensures s.Value() != "SystemError"
    {
      match s
      case SystemError => assert s.Value()[6] == ' ';
      case _ =>
    }
  }
}
