/** `JudgerBase.judge`, evaluated one subtask after another and one case
    after another rather than concurrently: the prefix-keyed cache in front of `judgeTestcase`, the
    skippable loop of min/mul subtasks, the run-everything loop of sum
    subtasks, and the score updates around them. */
module Judger {
  import opened Wrappers
  import opened JudgeTask
  import opened TestData
  import opened Scoring

  /** `judgeTestcase`, which runs the case in the sandbox: given the testcase
      and the number of calls made before it in this judging pass, the case
      state it returns or the text of the error it throws. */
  type Oracle = (TestCase, nat) -> Result<CaseState, string>

  /** What one judging pass accumulates: the prefix-keyed cache, every call
      made to `judgeTestcase` in order, and every case handed to the
      caching wrapper in order. */
  datatype Memo = Memo(cache: map<string, CaseState>, calls: seq<TestCase>, dispatched: seq<TestCase>)

  /** Every successful call left its result in the cache under its prefix. */
  ghost predicate CacheHoldsSuccesses(m: Memo, oracle: Oracle) {
    forall k | 0 <= k < |m.calls| && oracle(m.calls[k], k).Success? ::
      m.calls[k].prefix in m.cache && m.cache[m.calls[k].prefix] == oracle(m.calls[k], k).value
  }

  /** Every cache entry is the result of a successful call for its prefix. */
  ghost predicate CacheFromCalls(m: Memo, oracle: Oracle) {
    forall p | p in m.cache ::
      exists k | 0 <= k < |m.calls| :: m.calls[k].prefix == p && oracle(m.calls[k], k) == Success(m.cache[p])
  }

  /** No prefix is called again once a call for it has succeeded. */
  ghost predicate NoRecallAfterSuccess(m: Memo, oracle: Oracle) {
    forall i, j | 0 <= i < j < |m.calls| && m.calls[i].prefix == m.calls[j].prefix ::
      oracle(m.calls[i], i).Failure?
  }

  /** No case is called without having been dispatched. */
  ghost predicate CallsDispatched(m: Memo) {
    forall k | 0 <= k < |m.calls| :: m.calls[k] in m.dispatched
  }

  /** The cache holds, for each prefix, the result of the one successful
      call made for it; no prefix is called again once a call for it has
      succeeded; and no case is called without having been dispatched. */
  ghost predicate Consistent(m: Memo, oracle: Oracle) {
    && CacheHoldsSuccesses(m, oracle)
    && CacheFromCalls(m, oracle)
    && NoRecallAfterSuccess(m, oracle)
    && CallsDispatched(m)
  }

  /** m' continues m: both logs only grow, each new dispatch made at most
      one new call, and no cache entry changes. */
  ghost predicate Extends(m: Memo, m': Memo) {
    && m.calls <= m'.calls
    && m.dispatched <= m'.dispatched
    && |m'.calls| - |m.calls| <= |m'.dispatched| - |m.dispatched|
    && (forall p | p in m.cache :: p in m'.cache && m'.cache[p] == m.cache[p])
  }

  lemma ExtendsTransitive(m0: Memo, m1: Memo, m2: Memo)
    requires Extends(m0, m1) && Extends(m1, m2)
    ensures Extends(m0, m2)
  {
  }

  datatype Wrapped = Wrapped(outcome: Result<CaseState, string>, memo: Memo)

  /** `judgeTestcaseWrapper`: a cached prefix answers from the cache without
      calling `judgeTestcase`; otherwise exactly one call is made and a
      successful result is stored under the prefix. */
  function Wrap(tc: TestCase, m: Memo, oracle: Oracle): (r: Wrapped)
    ensures r.memo.dispatched == m.dispatched + [tc]
    ensures tc.prefix in m.cache ==> r.outcome == Success(m.cache[tc.prefix]) && r.memo.calls == m.calls
    ensures tc.prefix !in m.cache ==> r.outcome == oracle(tc, |m.calls|) && r.memo.calls == m.calls + [tc]
    ensures tc.prefix in m.cache ==> r.memo.cache == m.cache
    ensures r.outcome.Success? ==> r.memo.cache == m.cache[tc.prefix := r.outcome.value]
    ensures r.outcome.Failure? ==> r.memo.cache == m.cache
    ensures Extends(m, r.memo)
    ensures Consistent(m, oracle) ==> Consistent(r.memo, oracle)
  {
    if tc.prefix in m.cache then
      Wrapped(Success(m.cache[tc.prefix]), m.(dispatched := m.dispatched + [tc]))
    else
      var out := oracle(tc, |m.calls|);
      var cache := if out.Success? then m.cache[tc.prefix := out.value] else m.cache;
      var m' := Memo(cache, m.calls + [tc], m.dispatched + [tc]);
      WrapMissConsistent(tc, m, m', oracle);
      Wrapped(out, m')
  }

  lemma WrapMissConsistent(tc: TestCase, m: Memo, m': Memo, oracle: Oracle)
    requires tc.prefix !in m.cache
    requires m'.calls == m.calls + [tc] && m'.dispatched == m.dispatched + [tc]
    requires m'.cache == (if oracle(tc, |m.calls|).Success? then m.cache[tc.prefix := oracle(tc, |m.calls|).value] else m.cache)
    ensures Consistent(m, oracle) ==> Consistent(m', oracle)
  {
    if Consistent(m, oracle) {
      MissHoldsSuccesses(tc, m, m', oracle);
      MissFromCalls(tc, m, m', oracle);
      MissNoRecall(tc, m, m', oracle);
      assert CallsDispatched(m') by {
        forall k | 0 <= k < |m'.calls| ensures m'.calls[k] in m'.dispatched {
          if k < |m.calls| {
            assert m.calls[k] in m.dispatched;
          } else {
            assert m'.dispatched[|m.dispatched|] == tc;
          }
        }
      }
    }
  }

  lemma MissHoldsSuccesses(tc: TestCase, m: Memo, m': Memo, oracle: Oracle)
    requires tc.prefix !in m.cache
    requires m'.calls == m.calls + [tc]
    requires m'.cache == (if oracle(tc, |m.calls|).Success? then m.cache[tc.prefix := oracle(tc, |m.calls|).value] else m.cache)
    requires CacheHoldsSuccesses(m, oracle)
    ensures CacheHoldsSuccesses(m', oracle)
  {
    forall k | 0 <= k < |m'.calls| && oracle(m'.calls[k], k).Success?
      ensures m'.calls[k].prefix in m'.cache && m'.cache[m'.calls[k].prefix] == oracle(m'.calls[k], k).value
    {
      if k < |m.calls| {
        assert m'.calls[k] == m.calls[k];
      }
    }
  }

  lemma MissFromCalls(tc: TestCase, m: Memo, m': Memo, oracle: Oracle)
    requires tc.prefix !in m.cache
    requires m'.calls == m.calls + [tc]
    requires m'.cache == (if oracle(tc, |m.calls|).Success? then m.cache[tc.prefix := oracle(tc, |m.calls|).value] else m.cache)
    requires CacheFromCalls(m, oracle)
    ensures CacheFromCalls(m', oracle)
  {
    var n := |m.calls|;
    forall p | p in m'.cache
      ensures exists k | 0 <= k < |m'.calls| :: m'.calls[k].prefix == p && oracle(m'.calls[k], k) == Success(m'.cache[p])
    {
      if p != tc.prefix {
        var k :| 0 <= k < |m.calls| && m.calls[k].prefix == p && oracle(m.calls[k], k) == Success(m.cache[p]);
        assert m'.calls[k] == m.calls[k];
      } else {
        assert m'.calls[n] == tc;
      }
    }
  }

  lemma MissNoRecall(tc: TestCase, m: Memo, m': Memo, oracle: Oracle)
    requires tc.prefix !in m.cache
    requires m'.calls == m.calls + [tc]
    requires CacheHoldsSuccesses(m, oracle) && NoRecallAfterSuccess(m, oracle)
    ensures NoRecallAfterSuccess(m', oracle)
  {
    forall i, j | 0 <= i < j < |m'.calls| && m'.calls[i].prefix == m'.calls[j].prefix
      ensures oracle(m'.calls[i], i).Failure?
    {
      assert m'.calls[i] == m.calls[i];
      if j < |m.calls| {
        assert m'.calls[j] == m.calls[j];
      }
    }
  }

  /** The catch branch of both loops: the case's own state, now SystemError
      and carrying the error text; nothing else about it changes. */
  function Failed(slot: CaseState, e: string): (r: CaseState)
    ensures r.caseStatus == CaseStatus.SystemError && r.errorMessage == Some(e)
    ensures r.prefix == slot.prefix && r.detail == slot.detail
  {
    slot.(caseStatus := CaseStatus.SystemError, errorMessage := Some(e))
  }

  /** What a dispatched case's slot holds afterwards: the returned state on
      success, the failed version of the old state on a throw. */
  function Settle(slot: CaseState, out: Result<CaseState, string>): (r: CaseState)
    ensures out.Success? ==> r == out.value
    ensures out.Failure? ==> r.caseStatus == CaseStatus.SystemError && r.errorMessage == Some(out.error)
    ensures out.Failure? ==> r.prefix == slot.prefix && r.detail == slot.detail
  {
    match out
    case Success(c) => c
    case Failure(e) => Failed(slot, e)
  }

  /** A slot that was dispatched ended as the cached (first successful)
      state for its prefix, or as its old state failed with the text of an
      error `judgeTestcase` threw for that very case. */
  ghost predicate Settled(slot: CaseState, tc: TestCase, r: CaseState, m: Memo, oracle: Oracle) {
    || (tc.prefix in m.cache && r == m.cache[tc.prefix])
    || (exists k | 0 <= k < |m.calls| ::
          m.calls[k] == tc && oracle(m.calls[k], k).Failure? && r == Failed(slot, oracle(m.calls[k], k).error))
  }

  lemma SettledExtends(slot: CaseState, tc: TestCase, r: CaseState, m: Memo, m': Memo, oracle: Oracle)
    requires Settled(slot, tc, r, m, oracle) && Extends(m, m')
    ensures Settled(slot, tc, r, m', oracle)
  {
    if !(tc.prefix in m.cache && r == m.cache[tc.prefix]) {
      var k :| 0 <= k < |m.calls| && m.calls[k] == tc && oracle(m.calls[k], k).Failure?
               && r == Failed(slot, oracle(m.calls[k], k).error);
      assert m'.calls[k] == m.calls[k];
    }
  }

  /** The slots settled so far stay settled as the memo grows, and settling
      slot n extends the settled prefix by one. */
  lemma SettledPrefixStep(before: seq<CaseState>, cases: seq<TestCase>, slots: seq<CaseState>, n: nat, x: CaseState,
                          m: Memo, m': Memo, oracle: Oracle)
    requires n < |before| && n < |cases| && n < |slots|
    requires forall j | 0 <= j < n :: Settled(before[j], cases[j], slots[j], m, oracle)
    requires slots[n] == before[n] && Settled(before[n], cases[n], x, m', oracle)
    requires Extends(m, m')
    ensures forall j | 0 <= j < n + 1 :: Settled(before[j], cases[j], slots[n := x][j], m', oracle)
  {
    forall j | 0 <= j < n
      ensures Settled(before[j], cases[j], slots[j], m', oracle)
    {
      SettledExtends(before[j], cases[j], slots[j], m, m', oracle);
    }
  }

  /** Dispatching one case through the wrapper settles its slot. */
  lemma WrapSettles(slot: CaseState, tc: TestCase, m: Memo, oracle: Oracle)
    ensures var w := Wrap(tc, m, oracle); Settled(slot, tc, Settle(slot, w.outcome), w.memo, oracle)
  {
    var w := Wrap(tc, m, oracle);
    if w.outcome.Failure? {
      assert w.memo.calls[|m.calls|] == tc;
    }
  }

  /** The skippable loop of a min/mul subtask. `score` is never assigned
      after its initialisation to 0, so the skip test always fires: case 0
      is dispatched and every later case is marked Skipped unrun. */
  method JudgeSkippable(sub: Subtask, st: SubtaskState, m0: Memo, oracle: Oracle)
    returns (r: SubtaskState, m: Memo)
    requires |st.testcases| == |sub.cases|
    ensures |r.testcases| == |st.testcases|
    ensures |sub.cases| == 0 ==> m == m0
    ensures |sub.cases| > 0 ==> m.dispatched == m0.dispatched + [sub.cases[0]]
    ensures |sub.cases| > 0 ==> Settled(st.testcases[0], sub.cases[0], r.testcases[0], m, oracle)
    ensures forall j | 1 <= j < |r.testcases| :: r.testcases[j] == st.testcases[j].(caseStatus := CaseStatus.Skipped)
    ensures |m.calls| <= |m0.calls| + 1
    ensures Extends(m0, m)
    ensures Consistent(m0, oracle) ==> Consistent(m, oracle)
  {
    r, m := st, m0;
    var skipped := false;
    var index := 0;
    while index < |sub.cases|
      invariant 0 <= index <= |sub.cases|
      invariant |r.testcases| == |st.testcases|
      invariant skipped <==> index > 0
      invariant index == 0 ==> m == m0
      invariant index > 0 ==> m.dispatched == m0.dispatched + [sub.cases[0]]
      invariant index > 0 ==> Settled(st.testcases[0], sub.cases[0], r.testcases[0], m, oracle)
      invariant forall j | 1 <= j < index :: r.testcases[j] == st.testcases[j].(caseStatus := CaseStatus.Skipped)
      invariant forall j | index <= j < |r.testcases| :: r.testcases[j] == st.testcases[j]
      invariant Extends(m0, m)
      invariant Consistent(m0, oracle) ==> Consistent(m, oracle)
    {
      var current := r.testcases[index];
      if skipped {
        r := r.(testcases := r.testcases[index := current.(caseStatus := CaseStatus.Skipped)]);
      } else {
        var score: real := 0.0;
        var w := Wrap(sub.cases[index], m, oracle);
        WrapSettles(current, sub.cases[index], m, oracle);
        m := w.memo;
        r := r.(testcases := r.testcases[index := Settle(current, w.outcome)]);
        if score == 0.0 {
          skipped := true;
        }
        r := Rescore(sub, r);
      }
      index := index + 1;
    }
  }

  /** One case of a sum subtask: dispatch it through the wrapper, store the
      returned state (or the failed old state) in its slot, and rescore. */
  method JudgeCase(sub: Subtask, st: SubtaskState, index: nat, m0: Memo, oracle: Oracle)
    returns (r: SubtaskState, m: Memo)
    requires index < |st.testcases| == |sub.cases|
    ensures |r.testcases| == |st.testcases| && r.testcases == st.testcases[index := r.testcases[index]]
    ensures Settled(st.testcases[index], sub.cases[index], r.testcases[index], m, oracle)
    ensures r.score == Some(SubtaskScore(sub, r.testcases))
    ensures m.dispatched == m0.dispatched + [sub.cases[index]]
    ensures |m.calls| <= |m0.calls| + 1
    ensures Extends(m0, m)
    ensures Consistent(m0, oracle) ==> Consistent(m, oracle)
  {
    var current := st.testcases[index];
    var w := Wrap(sub.cases[index], m0, oracle);
    WrapSettles(current, sub.cases[index], m0, oracle);
    m := w.memo;
    r := st.(testcases := st.testcases[index := Settle(current, w.outcome)]);
    r := Rescore(sub, r);
  }

  /** What the sum loop has achieved after its first n cases: those cases
      were dispatched in order and settled, the rest are untouched, the
      score is current, and the memo only grew and stayed consistent. */
  ghost predicate EveryProgress(sub: Subtask, st: SubtaskState, r: SubtaskState, m0: Memo, m: Memo, n: nat, oracle: Oracle) {
    && n <= |sub.cases| == |st.testcases| == |r.testcases|
    && m.dispatched == m0.dispatched + sub.cases[..n]
    && (forall j | 0 <= j < n :: Settled(st.testcases[j], sub.cases[j], r.testcases[j], m, oracle))
    && (forall j | n <= j < |r.testcases| :: r.testcases[j] == st.testcases[j])
    && (n == 0 ==> r == st && m == m0)
    && (n > 0 ==> r.score == Some(SubtaskScore(sub, r.testcases)))
    && Extends(m0, m)
    && (Consistent(m0, oracle) ==> Consistent(m, oracle))
  }

  /** The loop of a sum subtask: every case is dispatched, in order here,
      and the score is recomputed after each. */
  method JudgeEvery(sub: Subtask, st: SubtaskState, m0: Memo, oracle: Oracle)
    returns (r: SubtaskState, m: Memo)
    requires |st.testcases| == |sub.cases|
    ensures |r.testcases| == |st.testcases|
    ensures m.dispatched == m0.dispatched + sub.cases
    ensures |m.calls| <= |m0.calls| + |sub.cases|
    ensures forall j | 0 <= j < |r.testcases| :: Settled(st.testcases[j], sub.cases[j], r.testcases[j], m, oracle)
    ensures |sub.cases| == 0 ==> r == st
    ensures |sub.cases| > 0 ==> r.score == Some(SubtaskScore(sub, r.testcases))
    ensures Extends(m0, m)
    ensures Consistent(m0, oracle) ==> Consistent(m, oracle)
  {
    r, m := st, m0;
    var index := 0;
    while index < |sub.cases|
      invariant EveryProgress(sub, st, r, m0, m, index, oracle)
    {
      var r', m' := JudgeCase(sub, r, index, m, oracle);
      SettledPrefixStep(st.testcases, sub.cases, r.testcases, index, r'.testcases[index], m, m', oracle);
      ExtendsTransitive(m0, m, m');
      assert sub.cases[..index + 1] == sub.cases[..index] + [sub.cases[index]];
      r, m := r', m';
      index := index + 1;
    }
    assert sub.cases[..index] == sub.cases;
  }

  /** The cases a subtask hands to the wrapper: all of them for sum, only
      the first for min and mul. */
  function Dispatched(sub: Subtask): seq<TestCase>
  {
    if sub.scoringType == Sum then sub.cases
    else if |sub.cases| == 0 then []
    else [sub.cases[0]]
  }

  /** Every dispatch of a whole test, subtask after subtask. */
  function Plan(subtasks: seq<Subtask>): seq<TestCase>
  {
    if |subtasks| == 0 then []
    else Plan(subtasks[..|subtasks| - 1]) + Dispatched(subtasks[|subtasks| - 1])
  }

  /** How a subtask's cases stand once it has been judged from `before`:
      for sum every slot is settled; for min/mul slot 0 is settled and
      every later slot is its old state marked Skipped; the score is the
      one its final cases deserve. */
  ghost predicate SubtaskJudged(sub: Subtask, before: seq<CaseState>, after: SubtaskState, m: Memo, oracle: Oracle) {
    && |sub.cases| == |before| == |after.testcases|
    && after.score == Some(SubtaskScore(sub, after.testcases))
    && (sub.scoringType == Sum ==>
          forall j | 0 <= j < |before| :: Settled(before[j], sub.cases[j], after.testcases[j], m, oracle))
    && (sub.scoringType != Sum ==>
          && (|before| > 0 ==> Settled(before[0], sub.cases[0], after.testcases[0], m, oracle))
          && forall j | 1 <= j < |before| :: after.testcases[j] == before[j].(caseStatus := CaseStatus.Skipped))
  }

  lemma SubtaskJudgedExtends(sub: Subtask, before: seq<CaseState>, after: SubtaskState, m: Memo, m': Memo, oracle: Oracle)
    requires SubtaskJudged(sub, before, after, m, oracle) && Extends(m, m')
    ensures SubtaskJudged(sub, before, after, m', oracle)
  {
    forall j | 0 <= j < |before| && (sub.scoringType == Sum || j == 0)
      ensures Settled(before[j], sub.cases[j], after.testcases[j], m', oracle)
    {
      SettledExtends(before[j], sub.cases[j], after.testcases[j], m, m', oracle);
    }
  }

  /** One subtask's evaluation: the loop its scoring type calls for, then
      the final score update. */
  method JudgeSubtask(sub: Subtask, st: SubtaskState, m0: Memo, oracle: Oracle)
    returns (r: SubtaskState, m: Memo)
    requires |st.testcases| == |sub.cases|
    ensures SubtaskJudged(sub, st.testcases, r, m, oracle)
    ensures m.dispatched == m0.dispatched + Dispatched(sub)
    ensures |m.calls| <= |m0.calls| + |Dispatched(sub)|
    ensures Extends(m0, m)
    ensures Consistent(m0, oracle) ==> Consistent(m, oracle)
  {
    if sub.scoringType != Sum {
      r, m := JudgeSkippable(sub, st, m0, oracle);
    } else {
      r, m := JudgeEvery(sub, st, m0, oracle);
    }
    r := Rescore(sub, r);
  }

  /** Judging subtask i keeps the subtasks before it judged. */
  lemma JudgedSoFar(subs: seq<Subtask>, before: seq<SubtaskState>, js: seq<SubtaskState>, st: SubtaskState,
                    i: nat, m: Memo, m': Memo, oracle: Oracle)
    requires i < |subs| == |before| == |js|
    requires forall k | 0 <= k < i :: SubtaskJudged(subs[k], before[k].testcases, js[k], m, oracle)
    requires Extends(m, m')
    ensures forall k | 0 <= k < i :: SubtaskJudged(subs[k], before[k].testcases, js[i := st][k], m', oracle)
  {
    forall k | 0 <= k < i
      ensures SubtaskJudged(subs[k], before[k].testcases, js[i := st][k], m', oracle)
    {
      SubtaskJudgedExtends(subs[k], before[k].testcases, js[k], m, m', oracle);
    }
  }

  /** The plan grows by one subtask's dispatches at a time. */
  lemma PlanStep(subs: seq<Subtask>, i: nat)
    requires i < |subs|
    ensures Plan(subs[..i + 1]) == Plan(subs[..i]) + Dispatched(subs[i])
  {
    assert subs[..i + 1][..i] == subs[..i];
  }

  /** The judge state and the test are index-aligned. */
  predicate Aligned(js: JudgeState, test: Test) {
    && |js.subtasks| == |test.subtasks|
    && forall i | 0 <= i < |js.subtasks| :: |js.subtasks[i].testcases| == |test.subtasks[i].cases|
  }

  /** `judge`: score every subtask once up front, then judge the subtasks
      with a fresh cache. Only subtask cases and scores change; every
      dispatch follows the plan; the cache stays consistent with the calls
      made, so in this one-at-a-time order no prefix is run again after a
      successful run. (The program starts every subtask before any call
      returns, so there every lookup misses.) */
  method Judge(t: Task, test: Test, oracle: Oracle) returns (r: Task, m: Memo)
    requires Aligned(t.judgeState, test)
    ensures r == t.(judgeState := r.judgeState)
    ensures r.judgeState.status == t.judgeState.status
    ensures r.judgeState.errorMessage == t.judgeState.errorMessage
    ensures Aligned(r.judgeState, test)
    ensures forall i | 0 <= i < |test.subtasks| ::
      SubtaskJudged(test.subtasks[i], t.judgeState.subtasks[i].testcases, r.judgeState.subtasks[i], m, oracle)
    ensures m.dispatched == Plan(test.subtasks)
    ensures |m.calls| <= |Plan(test.subtasks)|
    ensures Consistent(m, oracle)
  {
    var js := t.judgeState;
    var i := 0;
    while i < |test.subtasks|
      invariant 0 <= i <= |test.subtasks|
      invariant js.status == t.judgeState.status && js.errorMessage == t.judgeState.errorMessage
      invariant |js.subtasks| == |t.judgeState.subtasks|
      invariant forall k | 0 <= k < |js.subtasks| :: js.subtasks[k].testcases == t.judgeState.subtasks[k].testcases
    {
      js := UpdateSubtaskScore(js, test, i);
      i := i + 1;
    }

    m := Memo(map[], [], []);
    i := 0;
    while i < |test.subtasks|
      invariant 0 <= i <= |test.subtasks|
      invariant js.status == t.judgeState.status && js.errorMessage == t.judgeState.errorMessage
      invariant |js.subtasks| == |test.subtasks|
      invariant forall k | i <= k < |js.subtasks| :: js.subtasks[k].testcases == t.judgeState.subtasks[k].testcases
      invariant forall k | 0 <= k < i ::
        SubtaskJudged(test.subtasks[k], t.judgeState.subtasks[k].testcases, js.subtasks[k], m, oracle)
      invariant m.dispatched == Plan(test.subtasks[..i])
      invariant |m.calls| <= |m.dispatched|
      invariant Consistent(m, oracle)
    {
      var st, m' := JudgeSubtask(test.subtasks[i], js.subtasks[i], m, oracle);
      JudgedSoFar(test.subtasks, t.judgeState.subtasks, js.subtasks, st, i, m, m', oracle);
      PlanStep(test.subtasks, i);
      js := js.(subtasks := js.subtasks[i := st]);
      m := m';
      i := i + 1;
    }
    assert test.subtasks[..i] == test.subtasks;
    r := t.(judgeState := js);
  }

  /** The consequence of the skip quirk: a min or mul subtask with two or
      more cases always scores 0, since case 1 ends Skipped. */
  lemma SkippableScoresZero(sub: Subtask, before: seq<CaseState>, after: SubtaskState, m: Memo, oracle: Oracle)
    requires SubtaskJudged(sub, before, after, m, oracle)
    requires sub.scoringType != Sum && |sub.cases| >= 2
    ensures after.score == Some(Finite(0.0))
  {
    assert after.testcases[1].caseStatus == CaseStatus.Skipped;
  }

  /** Every state in a consistent cache is one the oracle returned. */
  lemma CachedComesFromOracle(m: Memo, oracle: Oracle, p: string)
    requires Consistent(m, oracle) && p in m.cache
    ensures exists tc: TestCase, k: nat :: oracle(tc, k) == Success(m.cache[p])
  {
    var k :| 0 <= k < |m.calls| && m.calls[k].prefix == p && oracle(m.calls[k], k) == Success(m.cache[p]);
    assert oracle(m.calls[k], k) == Success(m.cache[p]);
  }

  /** When `judgeTestcase` accepts everything, a sum subtask, or a min/mul
      subtask of a single case, scores its full weight. */
  lemma AcceptedSubtaskScoresWeight(sub: Subtask, before: seq<CaseState>, after: SubtaskState, m: Memo, oracle: Oracle)
    requires forall tc: TestCase, k: nat :: oracle(tc, k).Success? && oracle(tc, k).value.caseStatus == CaseStatus.Accepted
    requires Consistent(m, oracle)
    requires SubtaskJudged(sub, before, after, m, oracle)
    requires |sub.cases| > 0 && (sub.scoringType == Sum || |sub.cases| == 1)
    ensures after.score == Some(Finite(sub.score))
  {
    forall j | 0 <= j < |after.testcases|
      ensures after.testcases[j].caseStatus == CaseStatus.Accepted
    {
      var p := sub.cases[j].prefix;
      if p in m.cache && after.testcases[j] == m.cache[p] {
        CachedComesFromOracle(m, oracle, p);
      } else {
        assert false;
      }
    }
    if sub.scoringType == Mul {
      assert Pow(sub.score, 1) == sub.score * Pow(sub.score, 0);
    }
  }
}
