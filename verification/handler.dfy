/** The TestNG XML report handler as a pure reducer.

    The handler is driven by the element-open and element-close events of a
    TestNG results document. Opening `test`, `class` and `test-method`
    elements captures their attributes; closing a `test-method` element
    correlates the current class with a TestLink test case through a
    configurable custom field, writes PASSED or FAILED onto that test case
    and retains a `TestResult` with a note describing the TestNG run.

    Java's mutable handler fields become the fields of `State`; a thrown
    exception becomes a `Failure` that aborts the traversal. */
module TestNGHandler {
  import opened Wrappers
  import opened JavaText
  import opened TestLink

  // Element names, attribute names and the passing status token.
  const TestTag: string := "test"
  const ClassTag: string := "class"
  const MethodTag: string := "test-method"
  const NameAttribute: string := "name"
  const DurationMsAttribute: string := "duration-ms"
  const StartedAtAttribute: string := "started-at"
  const FinishedAtAttribute: string := "finished-at"
  const IsConfigAttribute: string := "is-config"
  const SignatureAttribute: string := "signature"
  const StatusAttribute: string := "status"
  const PassStatus: string := "PASS"

  /** The attributes of one element, by qualified name. */
  type Attributes = map<string, string>

  /** One structural event of the document, in document order. */
  datatype Event = Open(tag: string, attributes: Attributes) | Close(tag: string)

  /** Where a null reference is dereferenced. */
  datatype NullSite =
    | MethodListBeforeClass  // a `test-method` opens before any `class`
    | ClassNameNull          // the class had no name and a key-named field exists
    | MethodListNull         // a match was found before any `class` opened
    | MethodStatusNull       // the aggregation reaches a method without `status`

  /** The exceptions that abort a traversal. */
  datatype Error = NumberFormat(text: Option<string>) | NullPointer(site: NullSite)

  /** One `test-method` element, with every attribute captured as read. */
  datatype TestMethod = TestMethod(
    name: Option<string>,
    signature: Option<string>,
    duration: int,
    startedAt: Option<string>,
    finishedAt: Option<string>,
    isConfig: bool,
    status: Option<string>)

  /** Everything the handler keeps between events. `None` is a null field. */
  datatype State = State(
    report: Report,
    keyCustomFieldName: Option<string>,
    testName: Option<string>,
    durationMs: Option<string>,
    startedAt: Option<string>,
    finishedAt: Option<string>,
    className: Option<string>,
    methods: Option<seq<TestMethod>>,
    result: Option<TestResult>)

  /** `attributes.getValue(name)`: null when the attribute is absent. */
  function GetValue(attributes: Attributes, name: string): Option<string> {
    if name in attributes then Some(attributes[name]) else None
  }

  /** A freshly constructed handler: every captured field is null. */
  function Init(report: Report, keyCustomFieldName: Option<string>): State {
    State(report, keyCustomFieldName, None, None, None, None, None, None, None)
  }

  // ---------------------------------------------------------------------
  // Element open
  // ---------------------------------------------------------------------

  /** The record built from a `test-method` element. The duration is parsed
      as a `long` first; a bad duration is a `NumberFormatException`. */
  function MethodRecord(attributes: Attributes): (r: Result<TestMethod, Error>)
    ensures r.Failure? <==> ParseLong(GetValue(attributes, DurationMsAttribute)).None?
    ensures r.Failure? ==> r.error == NumberFormat(GetValue(attributes, DurationMsAttribute))
    ensures r.Success? ==>
      && DurationMsAttribute in attributes
      && r.value.duration == LiteralValue(attributes[DurationMsAttribute])
      && LongMin <= r.value.duration <= LongMax
    ensures r.Success? ==>
      (r.value.isConfig <==>
        IsConfigAttribute in attributes && EqualsIgnoreCase(attributes[IsConfigAttribute], "true"))
    ensures r.Success? ==>
      && r.value.name == GetValue(attributes, NameAttribute)
      && r.value.signature == GetValue(attributes, SignatureAttribute)
      && r.value.startedAt == GetValue(attributes, StartedAtAttribute)
      && r.value.finishedAt == GetValue(attributes, FinishedAtAttribute)
      && r.value.status == GetValue(attributes, StatusAttribute)
  {
    var durationValue := GetValue(attributes, DurationMsAttribute);
    match ParseLong(durationValue)
    case None => Failure(NumberFormat(durationValue))
    case Some(duration) =>
      Success(TestMethod(
        GetValue(attributes, NameAttribute),
        GetValue(attributes, SignatureAttribute),
        duration,
        GetValue(attributes, StartedAtAttribute),
        GetValue(attributes, FinishedAtAttribute),
        ParseBoolean(GetValue(attributes, IsConfigAttribute)),
        GetValue(attributes, StatusAttribute)))
  }

  /** `startElement`: capture the attributes of `test`, `class` and
      `test-method` elements; any other element changes nothing. */
  function StartElement(s: State, tag: string, attributes: Attributes): (r: Result<State, Error>)
    // `test`: exactly the four header fields are overwritten.
    ensures tag == TestTag ==>
      && r.Success?
      && r.value.testName == GetValue(attributes, NameAttribute)
      && r.value.durationMs == GetValue(attributes, DurationMsAttribute)
      && r.value.startedAt == GetValue(attributes, StartedAtAttribute)
      && r.value.finishedAt == GetValue(attributes, FinishedAtAttribute)
      && r.value.className == s.className
      && r.value.methods == s.methods
      && r.value.report == s.report
      && r.value.result == s.result
      && r.value.keyCustomFieldName == s.keyCustomFieldName
    // `class`: a fresh empty method list and a new class name; the header persists.
    ensures tag == ClassTag ==>
      && r.Success?
      && r.value.methods == Some([])
      && r.value.className == GetValue(attributes, NameAttribute)
      && r.value.testName == s.testName
      && r.value.durationMs == s.durationMs
      && r.value.startedAt == s.startedAt
      && r.value.finishedAt == s.finishedAt
      && r.value.report == s.report
      && r.value.result == s.result
      && r.value.keyCustomFieldName == s.keyCustomFieldName
    // `test-method`: one record appended at the end, earlier records untouched;
    // a bad duration wins over a missing method list.
    ensures tag == MethodTag ==>
      match MethodRecord(attributes)
      case Failure(e) => r == Failure(e)
      case Success(m) =>
        if s.methods.None? then r == Failure(NullPointer(MethodListBeforeClass))
        else
          && r.Success?
          && r.value.methods == Some(s.methods.value + [m])
          && r.value == s.(methods := r.value.methods)
    // Any other element is ignored.
    ensures tag != TestTag && tag != ClassTag && tag != MethodTag ==> r == Success(s)
  {
    if tag == TestTag then
      Success(s.(
        testName := GetValue(attributes, NameAttribute),
        durationMs := GetValue(attributes, DurationMsAttribute),
        startedAt := GetValue(attributes, StartedAtAttribute),
        finishedAt := GetValue(attributes, FinishedAtAttribute)))
    else if tag == ClassTag then
      Success(s.(methods := Some([]), className := GetValue(attributes, NameAttribute)))
    else if tag == MethodTag then
      match MethodRecord(attributes)
      case Failure(e) => Failure(e)
      case Success(m) =>
        match s.methods
        case None => Failure(NullPointer(MethodListBeforeClass))
        case Some(ms) => Success(s.(methods := Some(ms + [m])))
    else
      Success(s)
  }

  // ---------------------------------------------------------------------
  // Correlation
  // ---------------------------------------------------------------------

  /** A custom field whose name is the configured key, ignoring case. A null
      key matches nothing. */
  predicate IsKeyField(f: CustomField, key: Option<string>) {
    key.Some? && EqualsIgnoreCase(f.name, key.value)
  }

  /** The test case carries a key-named custom field whose value is exactly
      the class name. */
  predicate Matches(tc: TestCase, key: Option<string>, className: string) {
    exists k :: 0 <= k < |tc.customFields| &&
      IsKeyField(tc.customFields[k], key) && tc.customFields[k].value == Some(className)
  }

  /** Some test case carries a key-named custom field at all. */
  predicate HasKeyField(cases: seq<TestCase>, key: Option<string>) {
    exists j, k :: 0 <= j < |cases| && 0 <= k < |cases[j].customFields| &&
      IsKeyField(cases[j].customFields[k], key)
  }

  /** `i` is the last test case, in report order, that matches the class. */
  predicate IsLastMatch(cases: seq<TestCase>, key: Option<string>, className: string, i: nat) {
    i < |cases| && Matches(cases[i], key, className) &&
    forall j :: i < j < |cases| ==> !Matches(cases[j], key, className)
  }

  /** No test case matches the class. */
  predicate NoMatch(cases: seq<TestCase>, key: Option<string>, className: string) {
    forall j :: 0 <= j < |cases| ==> !Matches(cases[j], key, className)
  }

  /** The inner loop over one test case's custom fields: `true` when it hits
      the `break`. With a null class name, the first key-named field throws. */
  function ScanFields(fields: seq<CustomField>, key: Option<string>, className: Option<string>): (r: Result<bool, Error>)
    ensures className.Some? ==>
      r == Success(exists k :: 0 <= k < |fields| && IsKeyField(fields[k], key) && fields[k].value == className)
    ensures className.None? ==>
      && (r.Failure? <==> exists k :: 0 <= k < |fields| && IsKeyField(fields[k], key))
      && (r.Failure? ==> r.error == NullPointer(ClassNameNull))
      && (r.Success? ==> !r.value)
  {
    if fields == [] then Success(false)
    else if IsKeyField(fields[0], key) then
      match className
      case None => Failure(NullPointer(ClassNameNull))
      case Some(c) =>
        if fields[0].value == Some(c) then Success(true)
        else ScanFields(fields[1..], key, className)
    else ScanFields(fields[1..], key, className)
  }

  /** The outer loop over the test cases. The `break` leaves only the inner
      loop, so every test case is visited and a later hit replaces an earlier
      one: the index found is that of the last matching test case. */
  function Correlate(cases: seq<TestCase>, key: Option<string>, className: Option<string>): (r: Result<Option<nat>, Error>)
    ensures className.Some? ==> r.Success?
    ensures className.Some? && r.Success? && r.value.Some? ==>
      IsLastMatch(cases, key, className.value, r.value.value)
    ensures className.Some? && r.Success? && r.value.None? ==>
      NoMatch(cases, key, className.value)
    ensures className.None? ==>
      && (r.Failure? <==> HasKeyField(cases, key))
      && (r.Failure? ==> r.error == NullPointer(ClassNameNull))
      && (r.Success? ==> r.value.None?)
  {
    if cases == [] then Success(None)
    else
      var last := |cases| - 1;
      match Correlate(cases[..last], key, className)
      case Failure(e) => Failure(e)
      case Success(previous) =>
        match ScanFields(cases[last].customFields, key, className)
        case Failure(e) => Failure(e)
        case Success(hit) => Success(if hit then Some(last) else previous)
  }

  // ---------------------------------------------------------------------
  // Aggregation and note
  // ---------------------------------------------------------------------

  /** The first `n` methods of the list all have exactly the status "PASS". */
  predicate PassBefore(methods: seq<TestMethod>, n: int) {
    forall i :: 0 <= i < n && i < |methods| ==> methods[i].status == Some(PassStatus)
  }

  /** Every method in the list has exactly the status "PASS". */
  predicate AllPass(methods: seq<TestMethod>) {
    PassBefore(methods, |methods|)
  }

  /** The loop over the methods: it stops at the first method whose status is
      not "PASS" (case-sensitive) and reports FAILED; a null status reached
      by the loop throws; a list of passing methods gives PASSED. The Java
      failure counter is therefore 0 or 1 and only its sign is used. */
  function Aggregate(methods: seq<TestMethod>): (r: Result<ExecutionStatus, Error>)
    ensures r == Success(Passed) <==> AllPass(methods)
    ensures r == Success(Failed) <==>
      exists i :: 0 <= i < |methods| && PassBefore(methods, i) &&
        methods[i].status.Some? && methods[i].status.value != PassStatus
    ensures r.Failure? <==>
      exists i :: 0 <= i < |methods| && PassBefore(methods, i) && methods[i].status.None?
    ensures r.Failure? ==> r.error == NullPointer(MethodStatusNull)
    ensures r.Success? ==> r.value == Passed || r.value == Failed
  {
    if methods == [] then Success(Passed)
    else
      match methods[0].status
      case None => Failure(NullPointer(MethodStatusNull))
      case Some(status) =>
        if status != PassStatus then Success(Failed)
        else
          var rest := methods[1..];
          assert forall i :: PassBefore(rest, i) ==> PassBefore(methods, i + 1);
          Aggregate(rest)
  }

  /** The note attached to a result. Null header fields render as "null".
      It opens with the test name and closes with the finish time. */
  function Note(testName: Option<string>, methodCount: nat, durationMs: Option<string>,
                startedAt: Option<string>, finishedAt: Option<string>): (note: string)
    ensures "TestNG Test name: " + JavaString(testName) <= note
    ensures |note| >= 15 + |JavaString(finishedAt)| &&
      note[|note| - 15 - |JavaString(finishedAt)|..] == ", Finished at: " + JavaString(finishedAt)
  {
    "TestNG Test name: " + JavaString(testName) +
    ", Number of methods: " + NatToString(methodCount) +
    ", Duration in ms: " + JavaString(durationMs) +
    ", Started at: " + JavaString(startedAt) +
    ", Finished at: " + JavaString(finishedAt)
  }

  // ---------------------------------------------------------------------
  // Element close
  // ---------------------------------------------------------------------

  /** Correlation on the close of a `test-method` element. */
  function CloseMethod(s: State): Result<State, Error> {
    match Correlate(s.report.testCases, s.keyCustomFieldName, s.className)
    case Failure(e) => Failure(e)
    case Success(None) => Success(s)
    case Success(Some(i)) =>
      match s.methods
      case None => Failure(NullPointer(MethodListNull))
      case Some(methods) =>
        match Aggregate(methods)
        case Failure(e) => Failure(e)
        case Success(status) =>
          var found := s.report.testCases[i].(status := status);
          var notes := Note(s.testName, |methods|, s.durationMs, s.startedAt, s.finishedAt);
          Success(s.(
            report := s.report.(testCases := s.report.testCases[i := found]),
            result := Some(TestResult(found, s.report.build, s.report.testPlan, notes))))
  }

  /** `endElement`: closing a `test-method` correlates; closing anything
      else changes nothing. */
  function EndElement(s: State, tag: string): (r: Result<State, Error>)
    ensures tag != MethodTag ==> r == Success(s)
    // No match: no status is written and the retained result is kept.
    ensures (tag == MethodTag && s.className.Some? &&
             NoMatch(s.report.testCases, s.keyCustomFieldName, s.className.value)) ==> r == Success(s)
    // A null class name and no key-named field anywhere: the search finds nothing.
    ensures (tag == MethodTag && s.className.None? &&
             !HasKeyField(s.report.testCases, s.keyCustomFieldName)) ==> r == Success(s)
    // A null class name and some key-named field: `className.equals` throws.
    ensures (tag == MethodTag && s.className.None? &&
             HasKeyField(s.report.testCases, s.keyCustomFieldName)) ==> r == Failure(NullPointer(ClassNameNull))
    // A match before any class opened: the method list is null.
    ensures forall i: nat ::
      tag == MethodTag && s.className.Some? && s.methods.None? &&
      IsLastMatch(s.report.testCases, s.keyCustomFieldName, s.className.value, i) ==>
        r == Failure(NullPointer(MethodListNull))
    // A match whose aggregation reaches a method without a status.
    ensures forall i: nat ::
      tag == MethodTag && s.className.Some? && s.methods.Some? &&
      IsLastMatch(s.report.testCases, s.keyCustomFieldName, s.className.value, i) &&
      Aggregate(s.methods.value).Failure? ==>
        r == Failure(NullPointer(MethodStatusNull))
    // A match: only the last matching test case gets a status, computed over
    // the methods seen so far, and the result is replaced.
    ensures forall i: nat ::
      tag == MethodTag && s.className.Some? && s.methods.Some? &&
      IsLastMatch(s.report.testCases, s.keyCustomFieldName, s.className.value, i) &&
      Aggregate(s.methods.value).Success? ==>
        var status := if AllPass(s.methods.value) then Passed else Failed;
        var found := s.report.testCases[i].(status := status);
        && r.Success?
        && r.value.report == s.report.(testCases := s.report.testCases[i := found])
        && r.value.result == Some(TestResult(found, s.report.build, s.report.testPlan,
             Note(s.testName, |s.methods.value|, s.durationMs, s.startedAt, s.finishedAt)))
        && r.value == s.(report := r.value.report, result := r.value.result)
    // Every exception comes from a `test-method` close and one of three null dereferences.
    ensures r.Failure? ==>
      && tag == MethodTag
      && r.error.NullPointer?
      && (r.error.site == ClassNameNull <==>
            s.className.None? && HasKeyField(s.report.testCases, s.keyCustomFieldName))
      && (r.error.site == MethodStatusNull ==>
            s.methods.Some? && Aggregate(s.methods.value).Failure?)
      && r.error.site != MethodListBeforeClass
  {
    if tag == MethodTag then CloseMethod(s) else Success(s)
  }

  // ---------------------------------------------------------------------
  // The traversal
  // ---------------------------------------------------------------------

  /** One event of the document. */
  function Step(s: State, e: Event): Result<State, Error> {
    match e
    case Open(tag, attributes) => StartElement(s, tag, attributes)
    case Close(tag) => EndElement(s, tag)
  }

  /** The whole document: events are applied in order and the first
      exception aborts the rest. */
  function Run(s: State, events: seq<Event>): Result<State, Error>
    decreases |events|
  {
    if events == [] then Success(s)
    else
      match Step(s, events[0])
      case Failure(e) => Failure(e)
      case Success(next) => Run(next, events[1..])
  }

  /** Where a traversal stops: the state after the last event that
      completed, and the exception, if any, that stopped it. Every exception
      the handler raises comes before its event writes a field this model
      keeps (the `tempTestMethod` it may have written is never read), while
      the statuses earlier events wrote stay on the report's test cases, so
      this state is what a caller that catches the exception still holds. */
  datatype Outcome = Outcome(state: State, error: Option<Error>)

  /** The whole document, keeping the state reached when an exception
      aborts the rest. */
  function Traverse(s: State, events: seq<Event>): (o: Outcome)
    ensures o.error.None? <==> Run(s, events).Success?
    ensures o.error.None? ==> Run(s, events) == Success(o.state)
    ensures o.error.Some? ==> Run(s, events) == Failure(o.error.value)
    decreases |events|
  {
    if events == [] then Outcome(s, None)
    else
      match Step(s, events[0])
      case Failure(e) => Outcome(s, Some(e))
      case Success(next) => Traverse(next, events[1..])
  }

  /** `getTestResult`: the retained result, null until a class is matched. */
  function GetTestResult(s: State): Option<TestResult> {
    s.result
  }
}
