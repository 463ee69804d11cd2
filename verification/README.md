# judge-v3 worker: judging core in Dafny

This project models the judging core of the judge-v3 worker. That core takes one judge task and works out three things:

- the status of each of its testcases;
- the score of each subtask;
- the overall verdict.

It covers:

- **JudgeTask**: the task, judge-state, subtask-state and case-state records and their two status enumerations.
  - `setStatus` pushes a judge-level failure down to every case.
  - `getStatus` resolves the overall verdict.
  - A status is kept as the string the program stores. This makes the `as unknown as` cast in `getStatus` visible: it can leave the raw case string `"SystemError"` in the judge status.
- **TestData**: the per-problem test definition as the judger reads it. It holds ordered subtasks, each with a weight, a scoring type (sum, min, mul) and ordered testcases keyed by `prefix`.
- **Scoring**: `calculateSubtaskScore` and `updateSubtaskScore`.
  - JavaScript numbers appear as `Number = Finite(real) | NaN | Infinity`. That is enough to show the empty-list results: the mean of nothing is NaN, `Math.min()` is +Infinity and an empty product is 1.
- **Judger**: `JudgerBase.judge`.
  - The prefix-keyed cache in front of `judgeTestcase`.
  - The skippable loop for min/mul subtasks and the run-everything loop for sum subtasks.
  - The score updates around both loops.
  - `judgeTestcase`, which runs code in the sandbox, becomes an oracle parameter. The oracle maps a testcase and the number of earlier calls to a case state or an error text, so repeated calls may answer differently.
  - A `Memo` records the cache, every oracle call and every case handed to the wrapper. This lets the contracts state that, in the model's one-case-at-a-time order, no prefix runs again after a successful run.
  - In the program the cache never answers. Every subtask starts before any call returns, so every lookup runs before the first store (see Left out).
- **Daemon**: the catch block of the task handler and `postProcess`, the resolution that is actually applied before the final report.
  - `getStatus` and `postProcess` share one resolver, `JudgeTask.Resolve`. It checks whether all cases are Accepted, then makes a forward pass in which each case may overwrite the status, then applies the Judging safety net.
  - The forward pass (`Scan`) is proved equal to a backward reference (`LastPicked`): the last case in subtask-then-testcase order that writes anything decides the result.
- **EventRegistry**: the callback registry of `EventWebSocket`, made up of `on`, `once` and `dispatchEvent`.
  - A callback is an identity. A parameter `throws` names the callbacks that throw when invoked.
  - A dispatch records which callbacks it invokes, in what order, and whether it threw.
  - A throw ends the `for` loop, so the `once` filter never runs and the registry stays as it was.

## Behaviour worth knowing

- **The skip rule.** The comment at judger-base.ts:71 calls min and mul subtasks skippable. The debug message at line 93 reads "zero, skipping the rest". So the skip is evidently meant to follow a case that scores zero.
  - But the local `score` tested at line 92 is set to 0 at line 80 and never reassigned, so the test always fires after the first case.
  - Only case 0 is ever dispatched, and cases 1.. end as Skipped whatever case 0's outcome was. The model follows the code as written.
  - `Judger.SkippableScoresZero` proves the consequence: a min or mul subtask with two or more cases always scores 0. So a fully accepted "40 sum + 60 min, two cases each" test scores 40 for its subtasks, not 100.
- **Mul scoring.** Each Accepted case contributes the full weight (line 41), and line 13 multiplies the contributions. So a fully accepted mul subtask of weight w and n cases scores w^n, not w (`Scoring.ScoreOfCopies`).
- **The SystemError cast.** `getStatus` reports a SystemError case as the case string `"SystemError"`. `postProcess` maps it to the judge status `"System Error"`. `Daemon.PostProcessDiffersFromGetStatus` shows where the two part.

## Model

| member | source | states |
|---|---|---|
| JudgeTask.NewCaseState | src/daemon/interface/judgeTask.ts:125-135 | a new case keeps its prefix, starts Pending and has no message or detail |
| JudgeTask.NewJudgeState | src/daemon/interface/judgeTask.ts:62-65 | a new judge state is Waiting, with no message and no subtasks |
| JudgeTask.Cases | src/daemon/interface/judgeTask.ts:85-88 | every case of every subtask is in the flattened list; a single subtask flattens to exactly its own cases |
| JudgeTask.CasesAppend | src/daemon/interface/judgeTask.ts:85-88 | flattening the concatenation of two subtask lists concatenates their flattenings, in order |
| JudgeTask.AllAccepted | src/daemon/interface/judgeTask.ts:89 | true exactly when every case is Accepted, so true when there are no cases |
| JudgeTask.AllAcceptedInsert | src/daemon/interface/judgeTask.ts:89 | a list with one case inserted is all Accepted exactly when the rest are and the inserted case is |
| JudgeTask.InCases | src/daemon/interface/judgeTask.ts:85-88 | a case is in the flattened list exactly when some subtask holds it |
| JudgeTask.MarkAllSystemError | src/daemon/interface/judgeTask.ts:73-77 | every case of every subtask becomes SystemError; shape, scores and all other case fields are kept |
| JudgeTask.SetStatus | src/daemon/interface/judgeTask.ts:67-82 | the status becomes the given one; for Compile Error, No Testdata, System Error and Unknown every case status becomes SystemError, otherwise the subtasks are untouched; message, scores, prefixes, case messages and details never change |
| JudgeTask.SetStatusFailsEveryCase | src/daemon/interface/judgeTask.ts:67-77 | after a judge-level failure every case in the flattened list is SystemError |
| JudgeTask.LastPickedIsLast | src/daemon/interface/judgeTask.ts:94-113 | the overwrite pass leaves nothing exactly when no case writes; otherwise its result is written by a case after which no case writes |
| JudgeTask.LastPickedFront | src/daemon/interface/judgeTask.ts:94-113 | a list's last write is its tail's last write, or the head's write when the tail writes nothing |
| JudgeTask.LastPickedSingle | src/daemon/interface/judgeTask.ts:89-113 | a lone case's write is the last write, and the list is all Accepted exactly when that case is |
| JudgeTask.LastPickedIgnores | src/daemon/interface/judgeTask.ts:94-113 | a case that writes nothing can be inserted anywhere without changing the last write |
| JudgeTask.LastPickedAgree | src/daemon/interface/judgeTask.ts:94-113 | two status switches that agree on every case of a list give the same last write |
| JudgeTask.Scan | src/daemon/interface/judgeTask.ts:94-113 | the front-to-back overwriting loop equals the last write, or the starting status when nothing writes |
| JudgeTask.Fallback | src/daemon/interface/judgeTask.ts:115-116 | a leftover Judging becomes System Error and any other status is kept as it is; the result is never Judging |
| JudgeTask.Resolve | src/daemon/interface/judgeTask.ts:84-117 | Accepted when every case is Accepted; otherwise the last case's write, or the fallback of the prior status; never Judging |
| JudgeTask.GetStatusPick | src/daemon/interface/judgeTask.ts:95-112 | Accepted and Skipped write nothing; Pending and Judging write System Error; every failure status writes its own case string |
| JudgeTask.GetStatusPickNeverJudging | src/daemon/interface/judgeTask.ts:95-112 | no case status makes `getStatus` write Judging |
| JudgeTask.GetStatus | src/daemon/interface/judgeTask.ts:84-117 | only the status changes; Accepted if all cases are, otherwise the last case's write or the fallback; never Judging |
| JudgeTask.IgnoredCasesDoNotMatter | src/daemon/interface/judgeTask.ts:89-116 | an Accepted or Skipped case inserted anywhere leaves the last write unchanged; the resolved status is unchanged too, except that a Skipped case among otherwise all-Accepted cases turns Accepted into the fallback of the prior status |
| JudgeTask.GetStatusReportsRawSystemError | src/daemon/interface/judgeTask.ts:105-106 | a lone SystemError case makes `getStatus` report "SystemError", which is the value of no judge status |
| Scoring.Total | src/daemon/judge/judger-base.ts:9 | the sum of non-negative values is non-negative |
| Scoring.TotalFront | src/daemon/judge/judger-base.ts:9 | the left-to-right sum from 0 equals the first value plus the sum of the rest |
| Scoring.Product | src/daemon/judge/judger-base.ts:13 | a product with a zero factor is 0 |
| Scoring.ProductFront | src/daemon/judge/judger-base.ts:13 | the left-to-right product from 1 equals the first value times the product of the rest |
| Scoring.Minimum | src/daemon/judge/judger-base.ts:10-11 | the minimum of a non-empty list is one of its elements and no larger than any |
| Scoring.CalculateSubtaskScore | src/daemon/judge/judger-base.ts:6-15 | sum gives the mean (NaN on no values); min gives the least value (+Infinity on no values); mul gives the product from 1 |
| Scoring.TotalOfCopies | src/daemon/judge/judger-base.ts:9 | the sum of n copies of w is n times w |
| Scoring.ProductOfCopies | src/daemon/judge/judger-base.ts:13 | the product of n copies of w is w^n |
| Scoring.MeanOfCopies | src/daemon/judge/judger-base.ts:9 | the mean of n >= 1 copies of w is w |
| Scoring.ScoreOfCopies | src/daemon/judge/judger-base.ts:6-15 | on n >= 1 copies of the weight, sum and min give the weight and mul gives weight^n; on none they give NaN, +Infinity and 1 |
| Scoring.CaseValues | src/daemon/judge/judger-base.ts:40-42 | each case contributes the weight when Accepted and 0 otherwise |
| Scoring.SubtaskScore | src/daemon/judge/judger-base.ts:34-44 | 0 as soon as one case is not Accepted; otherwise the weight for sum and min and weight^n for mul, or NaN, +Infinity or 1 on no cases |
| Scoring.Rescore | src/daemon/judge/judger-base.ts:36-43 | a rescored subtask keeps its cases and gets the score its cases deserve |
| Scoring.UpdateSubtaskScore | src/daemon/judge/judger-base.ts:31-45 | with no i-th subtask on either side nothing changes; otherwise only subtask i's score changes, to what its cases deserve |
| Judger.Wrap | src/daemon/judge/judger-base.ts:47-56 | a cached prefix answers from the cache, with no call and the cache unchanged; otherwise exactly one call is made, numbered by the earlier calls, and a success is stored under the prefix while a failure stores nothing; every dispatch is recorded; the memo only grows and stays consistent |
| Judger.WrapMissConsistent | src/daemon/judge/judger-base.ts:53-54 | storing a fresh call's success keeps every cached state tied to the call that produced it |
| Judger.Failed | src/daemon/judge/judger-base.ts:87-89 | a throwing case becomes SystemError with the error text and keeps its prefix and detail |
| Judger.Settle | src/daemon/judge/judger-base.ts:86-89 | a success replaces the slot by the returned state; a failure marks the old slot SystemError with the error text and keeps its prefix and detail |
| Judger.WrapSettles | src/daemon/judge/judger-base.ts:82-89 | after one dispatch the slot holds the cached state for its prefix, or its old state failed with the error that call threw |
| Judger.JudgeSkippable | src/daemon/judge/judger-base.ts:72-99 | only case 0 is dispatched and settled; every later case is its old state marked Skipped; at most one `judgeTestcase` call is made; the memo only grows, by at most one call per dispatch, and stays consistent |
| Judger.JudgeCase | src/daemon/judge/judger-base.ts:104-120 | only slot `index` changes; it is settled by one dispatch of case `index`; the score is recomputed from the new cases; at most one `judgeTestcase` call is made; the memo only grows and stays consistent |
| Judger.JudgeEvery | src/daemon/judge/judger-base.ts:100-122 | every case is dispatched in order and settled; at most one `judgeTestcase` call is made per case; the score is what the final cases deserve; the memo only grows and stays consistent |
| Judger.JudgeSubtask | src/daemon/judge/judger-base.ts:70-126 | a subtask ends judged as its scoring type dictates, with the score its final cases deserve, dispatches exactly its planned cases and makes at most one `judgeTestcase` call per dispatch |
| Judger.Judge | src/daemon/judge/judger-base.ts:30-129 | only subtask cases and scores change; the state stays aligned with the test; every subtask ends judged; the dispatches follow the plan; there are at most as many `judgeTestcase` calls as planned dispatches; the cache is consistent with the calls made, so in this one-at-a-time order no prefix is called again after a success |
| Judger.SkippableScoresZero | src/daemon/judge/judger-base.ts:72-99 | a judged min or mul subtask with two or more cases scores 0 |
| Judger.CachedComesFromOracle | src/daemon/judge/judger-base.ts:47-56 | every cached state is one that `judgeTestcase` returned |
| Judger.AcceptedSubtaskScoresWeight | src/daemon/judge/judger-base.ts:100-124 | when `judgeTestcase` accepts everything, a sum subtask or a single-case min/mul subtask scores its full weight |
| Daemon.Counterpart | src/daemon/index.ts:66-98 | each of the ten failure case statuses maps to the judge status of the same name; Accepted, Skipped, Pending and Judging map to nothing |
| Daemon.PostProcessPick | src/daemon/index.ts:66-98 | Accepted, Skipped, Pending and Judging write nothing; every other case status writes the judge status of the same name, SystemError writing "System Error" |
| Daemon.PostProcessPickNeverJudging | src/daemon/index.ts:66-98 | no case status makes `postProcess` write Judging |
| Daemon.PostProcess | src/daemon/index.ts:56-104 | only the status changes; Accepted if all cases are, otherwise the counterpart of the last failing case or the fallback; never Judging |
| Daemon.PostProcessIgnores | src/daemon/index.ts:61-102 | a Pending, Judging or Skipped case inserted anywhere leaves the last write unchanged; the resolved status is unchanged unless the other cases are all Accepted, when it becomes the fallback of the prior status instead of Accepted |
| Daemon.PostProcessMatchesGetStatus | src/daemon/index.ts:56-104 | without Pending, Judging or SystemError cases, `postProcess` and `getStatus` give the same status |
| Daemon.PostProcessDiffersFromGetStatus | src/daemon/index.ts:95-102 | a lone SystemError case gives "SystemError" from `getStatus` but "System Error" from `postProcess`; a lone Pending case gives System Error from `getStatus` but keeps Waiting in `postProcess` |
| Daemon.PostProcessYieldsJudgeStatus | src/daemon/index.ts:56-104 | starting from a genuine judge status, `postProcess` ends on a genuine judge status |
| Daemon.OnJudgeError | src/daemon/index.ts:36-40 | the status becomes System Error and the message "An error occurred." plus the error text; cases and everything else are untouched |
| Daemon.Conclude | src/daemon/index.ts:31-42 | the reported task keeps its cases, carries the error message only when judging threw, and is never Judging |
| Daemon.ConcludeAfterError | src/daemon/index.ts:36-42 | after a throw the reported status is Accepted if all cases are, otherwise the last failing case's counterpart, otherwise System Error |
| EventRegistry.Register | src/websocket.ts:39-49 | the event's list (empty if absent) gains the listener at its end; other events are untouched |
| EventRegistry.On | src/websocket.ts:39-43 | the event's list gains a lasting listener at its end; other events are untouched |
| EventRegistry.Once | src/websocket.ts:45-49 | the event's list gains a one-shot listener at its end; other events are untouched |
| EventRegistry.Ids | src/websocket.ts:58-60 | the callbacks invoked are those of the list, in list order |
| EventRegistry.Persistent | src/websocket.ts:61-63 | the filter keeps exactly the lasting listeners |
| EventRegistry.PersistentAppend | src/websocket.ts:61-63 | filtering distributes over concatenation, so the kept listeners keep their order |
| EventRegistry.PersistentKeepsLasting | src/websocket.ts:61-63 | a list without one-shot listeners is kept whole |
| EventRegistry.Invoked | src/websocket.ts:58-60 | callbacks run in list order; with no thrower every one runs; otherwise the run stops at the first thrower, which is the last one invoked |
| EventRegistry.IdsAppend | src/websocket.ts:58-60 | the callbacks of two joined lists are those of the first then those of the second |
| EventRegistry.DispatchEvent | src/websocket.ts:56-65 | an unknown event invokes nothing and changes nothing; otherwise the listeners run in list order; if one throws, the run stops after it and the registry is unchanged; if none throws, only the lasting listeners remain; other events are untouched |
| EventRegistry.DispatchTwice | src/websocket.ts:56-65 | a second dispatch leaves the registry as the first left it; after a clean first dispatch it invokes just the lasting listeners and does not throw; after a throwing one it repeats the first exactly |
| EventRegistry.OnThenDispatch | src/websocket.ts:39-65 | when no listener throws, a listener added with `on` is invoked last by the next dispatch and stays registered; when one throws, the registry keeps every listener |
| EventRegistry.OnceThenDispatch | src/websocket.ts:45-65 | when no listener throws, a listener added with `once` is invoked last by the next dispatch and is then gone; when one throws, it stays registered |
| EventRegistry.PersistentOccurrences | src/websocket.ts:61-63 | filtering never adds a listener for a callback |
| EventRegistry.PersistentDropsOnceOnly | src/websocket.ts:61-63 | a callback never registered with `on` has no listener left after the filter |
| EventRegistry.DispatchKeepsNoThrower | src/websocket.ts:56-65 | a dispatch only removes listeners, so a registry with no throwing listener keeps none |
| EventRegistry.BudgetAfterDispatch | src/websocket.ts:56-65 | a dispatch without throwers invokes all the event's listeners and uses up that event's share of a `once`-only callback's budget; the rest carries over |
| EventRegistry.DispatchAllWithinBudget | src/websocket.ts:56-65 | when no registered listener throws, a callback only ever registered with `once`, on one event, at most b times, is invoked at most b times over any dispatches |
| EventRegistry.OnceInvokedAtMostOnce | src/websocket.ts:45-65 | when no registered listener throws, a callback registered once with `once` and never with `on` is invoked at most once over any sequence of dispatches |
| EventRegistry.ThrowKeepsOnceListener | src/websocket.ts:56-65 | when a lasting listener after a one-shot one throws, the filter never runs, so the one-shot callback is invoked once by every dispatch of the event, however many there are |

## Left out

- Concurrency: the program starts every subtask at judger-base.ts:70, and every case of a sum subtask at line 104, before any `judgeTestcase` call returns. Each runs synchronously up to its first `await`, and min/mul subtasks dispatch only case 0. So every cache lookup (line 49) runs before the first store (line 54). In the program the cache never answers: every dispatch calls `judgeTestcase`, and a prefix shared by two subtasks runs once per dispatch. The model judges one case after another in declared order, where the cache does answer.
- Judger.Wrap, Judger.Judge: the promise that no prefix is called again after a success holds for the model's one-at-a-time order only, not for the program's interleaving described above.
- Judger.Judge: `Settled` says a slot holds the cached state for its prefix, or its old state failed with an error thrown for that testcase. It does not say which call produced it.
- Progress reports, the `started` callback that marks a case Judging, and all logging are left out. They are I/O; their only effect on state is the transient Judging status, which each dispatch overwrites.
- The compile step, the standard judger, the coordinator protocol, the database access and the process bootstrap are left out (`src/daemon/judge/standard.ts`, `src/daemon/remote.ts`, `src/mongo.ts`). Their behaviour is sandbox and network I/O.
- The judge entry point `src/daemon/judge/index.ts` is left out. It is glue, and as written it does not connect `Judger.Judge` to `Daemon.Conclude`:
  - `src/daemon/index.ts:33` calls it with two arguments, but it takes three (lines 15-20). So `reportCompileProgress` is undefined when line 57 calls it.
  - Line 65 passes a callback where `JudgerBase.judge` (judger-base.ts:30) expects the task.
  - So the handler never hands its task to `JudgerBase.judge`. A task either comes back untouched, through the early returns at lines 29 and 51, or reaches the catch block at `src/daemon/index.ts:36`.
  - `Daemon.Conclude` therefore takes the judged task state as a parameter rather than as `Judger.Judge`'s output.
- `src/daemon/interface/test.ts` is not part of this model. The `TestData` types follow the fields the judger reads. The test's limits and special-judge fields are left out because the judging core never reads them.
- The socket side of `EventWebSocket` (connecting, `emit`, message decoding, `close`) is left out because it is network I/O.
- EventRegistry.DispatchEvent: a callback that registers new listeners while it is being dispatched is not modelled. Callbacks are identities, not code. Whether one throws is given by `throws`. An `async` callback, such as the `onTask` listener at src/daemon/remote.ts:39, returns a rejected promise instead of throwing, so it belongs outside `throws`. Where the exception goes after it leaves `dispatchEvent` is not modelled.
- EventRegistry.DispatchAllWithinBudget, EventRegistry.OnceInvokedAtMostOnce: the at-most-once bound is proved only when no registered listener throws. EventRegistry.ThrowKeepsOnceListener shows that it fails otherwise.
- EventRegistry.ListenersOf: an event name inherited from the object prototype (such as `toString`) reads as absent here. In the program it reads the inherited member.
- Judger.Judge requires the judge state to hold one subtask per test subtask and one case slot per testcase. This is an assumption about what the coordinator sends: the state arrives with the task (`src/daemon/index.ts:24`). The loops run over the test's lengths (judger-base.ts:65, 74, 103), and the program handles a misaligned state as follows; none of these runs is modelled.
  - Extra subtasks or slots in the state are never judged or overwritten. Extra slots still count in the score, though: lines 34 and 40 read every slot, so one extra Pending slot makes its subtask score 0.
  - A missing slot of a sum subtask, or slot 0 of a min/mul subtask, is filled when its case succeeds (lines 86, 112).
  - A missing slot whose case fails ends in a TypeError when the catch block writes to it (lines 88, 114).
  - A missing min/mul slot past slot 0 ends in a TypeError whatever case 0 returned, because line 77 marks it Skipped.
  - A missing subtask whose test subtask has at least one case ends in a TypeError at line 75 or 105. One with no cases is passed over: the loops never run, and the score update returns early at line 33.
- Scoring.CalculateSubtaskScore: floating point is modelled as exact reals plus NaN and +Infinity. Rounding is left out.
- The task's overall `score` field is not computed by this core, so no member sets it.
