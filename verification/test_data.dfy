/** The per-problem test definition, as the judger reads it: ordered
    subtasks, each with a weight, a scoring type and ordered testcases. */
module TestData {

  datatype ScoringType = Sum | Min | Mul

  /** One testcase: its prefix (the memoisation key) and its blob references. */
  datatype TestCase = TestCase(prefix: string, input: string, output: string)

  datatype Subtask = Subtask(score: real, scoringType: ScoringType, cases: seq<TestCase>)

  datatype Test = Test(subtasks: seq<Subtask>)
}
