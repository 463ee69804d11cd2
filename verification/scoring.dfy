/** Subtask scoring: `calculateSubtaskScore` over the three scoring types and
    the score a subtask gets from the state of its cases. */
module Scoring {
  import opened Wrappers
  import opened JudgeTask
  import opened TestData

  /** `reduce((prev, curr) => prev + curr, 0)`, a fold from the left:
      values that are all non-negative total a non-negative number. */
  function Total(xs: seq<real>): (r: real)
    ensures (forall k | 0 <= k < |xs| :: xs[k] >= 0.0) ==> r >= 0.0
  {
    if |xs| == 0 then 0.0 else Total(xs[..|xs| - 1]) + xs[|xs| - 1]
  }

  /** `reduce((prev, curr) => prev * curr, 1)`, a fold from the left: a
      single 0 among the values makes the product 0. */
  function Product(xs: seq<real>): (r: real)
    ensures (exists k | 0 <= k < |xs| :: xs[k] == 0.0) ==> r == 0.0
  {
    if |xs| == 0 then 1.0
    else
      var n := |xs| - 1;
      assert (exists k | 0 <= k < |xs| :: xs[k] == 0.0) ==> xs[n] == 0.0 || exists k | 0 <= k < n :: xs[..n][k] == 0.0;
      Product(xs[..n]) * xs[n]
  }

  /** The left fold equals the fold from the right: the first value plus
      the total of the rest. */
  lemma {:induction false} TotalFront(xs: seq<real>)
    requires |xs| > 0
    ensures Total(xs) == xs[0] + Total(xs[1..])
  {
    var n := |xs| - 1;
    if n > 0 {
      assert xs[1..][..n - 1] == xs[..n][1..];
      assert xs[1..][n - 1] == xs[n];
      TotalFront(xs[..n]);
    }
  }

  /** The left fold equals the fold from the right: the first value times
      the product of the rest. */
  lemma {:induction false} ProductFront(xs: seq<real>)
    requires |xs| > 0
    ensures Product(xs) == xs[0] * Product(xs[1..])
  {
    var n := |xs| - 1;
    if n > 0 {
      assert xs[1..][..n - 1] == xs[..n][1..];
      assert xs[1..][n - 1] == xs[n];
      ProductFront(xs[..n]);
    }
  }

  /** `Math.min(...xs)` on a non-empty list: an element no larger than any other. */
  function Minimum(xs: seq<real>): (m: real)
    requires |xs| > 0
    ensures m in xs
    ensures forall k | 0 <= k < |xs| :: m <= xs[k]
  {
    if |xs| == 1 then xs[0]
    else
      var rest := Minimum(xs[1..]);
      if xs[0] <= rest then xs[0] else rest
  }

  function Pow(w: real, n: nat): real
  {
    if n == 0 then 1.0 else w * Pow(w, n - 1)
  }

  /** n copies of w: the per-case values of a fully Accepted subtask. */
  function Copies(w: real, n: nat): (r: seq<real>)
    ensures |r| == n && forall k | 0 <= k < n :: r[k] == w
  {
    seq(n, _ => w)
  }

  /** `calculateSubtaskScore`: the mean for sum (NaN on no values), the minimum
      for min (+Infinity on no values), the product from 1 for mul. */
  function CalculateSubtaskScore(t: ScoringType, xs: seq<real>): (r: Number)
    ensures t == Sum && |xs| == 0 ==> r == NaN
    ensures t == Sum && |xs| > 0 ==> r.Finite? && r.value * (|xs| as real) == Total(xs)
    ensures t == Min && |xs| == 0 ==> r == Infinity
    ensures t == Min && |xs| > 0 ==> r.Finite? && r.value in xs && forall k | 0 <= k < |xs| :: r.value <= xs[k]
    ensures t == Mul ==> r == Finite(Product(xs))
  {
    match t
    case Sum => if |xs| == 0 then NaN else Finite(Total(xs) / (|xs| as real))
    case Min => if |xs| == 0 then Infinity else Finite(Minimum(xs))
    case Mul => Finite(Product(xs))
  }

  lemma {:induction false} TotalOfCopies(w: real, n: nat)
    ensures Total(Copies(w, n)) == (n as real) * w
  {
    if n > 0 {
      assert Copies(w, n)[..n - 1] == Copies(w, n - 1);
      TotalOfCopies(w, n - 1);
    }
  }

  lemma {:induction false} ProductOfCopies(w: real, n: nat)
    ensures Product(Copies(w, n)) == Pow(w, n)
  {
    if n > 0 {
      assert Copies(w, n)[..n - 1] == Copies(w, n - 1);
      ProductOfCopies(w, n - 1);
      PowFront(w, n);
    }
  }

  lemma {:induction false} PowFront(w: real, n: nat)
    requires n > 0
    ensures Pow(w, n) == Pow(w, n - 1) * w
  {
    if n > 1 {
      PowFront(w, n - 1);
    }
  }

  lemma Cancel(a: real, m: real)
    requires m > 0.0
    ensures (m * a) / m == a
  {
  }

  /** The mean of n >= 1 copies of w is w. */
  lemma MeanOfCopies(w: real, n: nat)
    requires n > 0
    ensures CalculateSubtaskScore(Sum, Copies(w, n)) == Finite(w)
  {
    var m := n as real;
    TotalOfCopies(w, n);
    assert Total(Copies(w, n)) == m * w;
    Cancel(w, m);
  }

  /** On n >= 1 copies of the weight w, sum and min give w back while mul
      gives w^n; on no copies they give NaN, +Infinity and 1. */
  lemma ScoreOfCopies(t: ScoringType, w: real, n: nat)
    ensures CalculateSubtaskScore(t, Copies(w, n)) ==
      if n == 0 then (match t case Sum => NaN case Min => Infinity case Mul => Finite(1.0))
      else if t == Mul then Finite(Pow(w, n))
      else Finite(w)
  {
    var xs := Copies(w, n);
    match t
    case Sum =>
      if n > 0 {
        MeanOfCopies(w, n);
      }
    case Min =>
      if n > 0 {
        assert CalculateSubtaskScore(t, xs).value in xs;
      }
    case Mul =>
      ProductOfCopies(w, n);
  }

  /** The per-case values `updateSubtaskScore` hands to the calculation:
      the weight for an Accepted case, 0 for any other. */
  function CaseValues(cases: seq<CaseState>, w: real): (r: seq<real>)
    ensures |r| == |cases|
    ensures forall k | 0 <= k < |cases| :: r[k] == if cases[k].caseStatus == CaseStatus.Accepted then w else 0.0
  {
    seq(|cases|, k requires 0 <= k < |cases| =>
      (if cases[k].caseStatus == CaseStatus.Accepted then 1.0 else 0.0) * w)
  }

  /** The score `updateSubtaskScore` gives a subtask whose cases stand as
      given: 0 as soon as one case is not Accepted, otherwise the weight
      (sum, min) or the weight to the number of cases (mul). */
  function SubtaskScore(sub: Subtask, cases: seq<CaseState>): (r: Number)
    ensures !AllAccepted(cases) ==> r == Finite(0.0)
    ensures AllAccepted(cases) && |cases| > 0 ==>
      r == Finite(if sub.scoringType == Mul then Pow(sub.score, |cases|) else sub.score)
    ensures AllAccepted(cases) && |cases| == 0 ==>
      r == (match sub.scoringType case Sum => NaN case Min => Infinity case Mul => Finite(1.0))
  {
    if exists k | 0 <= k < |cases| :: cases[k].caseStatus != CaseStatus.Accepted then Finite(0.0)
    else
      assert CaseValues(cases, sub.score) == Copies(sub.score, |cases|);
      ScoreOfCopies(sub.scoringType, sub.score, |cases|);
      CalculateSubtaskScore(sub.scoringType, CaseValues(cases, sub.score))
  }

  /** One subtask's state rescored against its definition. */
  function Rescore(sub: Subtask, st: SubtaskState): (r: SubtaskState)
    ensures r.testcases == st.testcases
    ensures r.score == Some(SubtaskScore(sub, st.testcases))
  {
    st.(score := Some(SubtaskScore(sub, st.testcases)))
  }

  /** `updateSubtaskScore(i)`: rescore subtask i when both the state and the
      test have an i-th subtask; otherwise change nothing. Only that
      subtask's score ever changes. */
  function UpdateSubtaskScore(js: JudgeState, test: Test, i: int): (r: JudgeState)
    ensures r.status == js.status && r.errorMessage == js.errorMessage
    ensures |r.subtasks| == |js.subtasks|
    ensures forall k | 0 <= k < |js.subtasks| :: r.subtasks[k].testcases == js.subtasks[k].testcases
    ensures forall k | 0 <= k < |js.subtasks| && k != i :: r.subtasks[k] == js.subtasks[k]
    ensures !(0 <= i < |js.subtasks| && 0 <= i < |test.subtasks|) ==> r == js
    ensures 0 <= i < |js.subtasks| && 0 <= i < |test.subtasks| ==>
      r.subtasks[i].score == Some(SubtaskScore(test.subtasks[i], js.subtasks[i].testcases))
  {
    if 0 <= i < |js.subtasks| && 0 <= i < |test.subtasks| then
      js.(subtasks := js.subtasks[i := Rescore(test.subtasks[i], js.subtasks[i])])
    else js
  }
}
