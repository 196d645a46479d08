/** The TestLink side of the correlation: the fields of a TestLink report,
    its test cases and their custom fields that the TestNG handler reads or
    writes, and the result record it produces. */
module TestLink {
  import opened Wrappers

  /** Execution status of a test case as TestLink knows it. The handler only
      ever writes `Passed` or `Failed`; other values are left untouched. */
  datatype ExecutionStatus = NotRun | Passed | Failed | Blocked

  /** A (name, value) custom field of a test case. The value may be null. */
  datatype CustomField = CustomField(name: string, value: Option<string>)

  /** A TestLink test case: an identity, its custom fields in report order and
      its execution status, the only field the handler writes. */
  datatype TestCase = TestCase(id: int, customFields: seq<CustomField>, status: ExecutionStatus)

  /** Build and test plan of the report, carried into every result unchanged. */
  datatype Build = Build(id: int, name: string)
  datatype TestPlan = TestPlan(id: int, name: string)

  /** The report the handler correlates against: its test cases in report
      order, the build and the test plan. */
  datatype Report = Report(build: Build, testPlan: TestPlan, testCases: seq<TestCase>)

  /** The outcome retained by the handler: the matched test case, the
      report's build and test plan, and the note describing the TestNG run. */
  datatype TestResult = TestResult(testCase: TestCase, build: Build, testPlan: TestPlan, notes: string)

  /** Two sequences of test cases agree on everything except, possibly,
      execution status: the only difference the handler can make. */
  predicate SameCasesUpToStatus(a: seq<TestCase>, b: seq<TestCase>) {
    |a| == |b| &&
    forall i :: 0 <= i < |a| ==> a[i].id == b[i].id && a[i].customFields == b[i].customFields
  }
}
