/** Properties of whole traversals: what a class with its methods produces,
    what every traversal preserves, and the worked examples of a TestNG
    document correlated against a one-case TestLink report. */
module HandlerProperties {
  import opened Wrappers
  import opened JavaText
  import opened TestLink
  import opened TestNGHandler

  // ---------------------------------------------------------------------
  // Running a concatenation of event sequences
  // ---------------------------------------------------------------------

  /** Running `a + b` is running `a` and then, unless it aborted, `b`. */
  lemma {:induction false} RunAppend(s: State, a: seq<Event>, b: seq<Event>)
    ensures Run(s, a + b) ==
      match Run(s, a)
      case Failure(e) => Failure(e)
      case Success(t) => Run(t, b)
    decreases |a|
  {
    if a == [] {
      assert a + b == b;
    } else {
      assert (a + b)[0] == a[0];
      assert (a + b)[1..] == a[1..] + b;
      match Step(s, a[0])
      case Failure(e) =>
      case Success(next) =>
        RunAppend(next, a[1..], b);
    }
  }

  // ---------------------------------------------------------------------
  // Aggregation
  // ---------------------------------------------------------------------

  /** Every method of the list has a status. */
  predicate StatusesPresent(methods: seq<TestMethod>) {
    forall i :: 0 <= i < |methods| ==> methods[i].status.Some?
  }

  /** When every method has a status, the class is FAILED exactly when some
      method's status is not "PASS" and PASSED otherwise, however many fail. */
  lemma AggregateAnyFailure(methods: seq<TestMethod>)
    requires StatusesPresent(methods)
    ensures Aggregate(methods) == Success(Failed) <==>
      exists i :: 0 <= i < |methods| && methods[i].status != Some(PassStatus)
    ensures Aggregate(methods) == Success(Passed) <==>
      forall i :: 0 <= i < |methods| ==> methods[i].status == Some(PassStatus)
  {
    if exists i :: 0 <= i < |methods| && methods[i].status != Some(PassStatus) {
      var i :| 0 <= i < |methods| && methods[i].status != Some(PassStatus);
      var first := FirstNonPass(methods, i);
      assert PassBefore(methods, first);
    }
  }

  /** The position of the first method at or before `bound` whose status is
      not "PASS": the method the Java loop breaks on. */
  function FirstNonPass(methods: seq<TestMethod>, bound: nat): (first: nat)
    requires bound < |methods| && methods[bound].status != Some(PassStatus)
    ensures first <= bound && methods[first].status != Some(PassStatus)
    ensures forall j :: 0 <= j < first ==> methods[j].status == Some(PassStatus)
    decreases bound
  {
    if exists j :: 0 <= j < bound && methods[j].status != Some(PassStatus) then
      var j :| 0 <= j < bound && methods[j].status != Some(PassStatus);
      FirstNonPass(methods, j)
    else bound
  }

  /** A `test-method` element whose `duration-ms` is a 64-bit value written
      in decimal yields a record whose duration is exactly that value. */
  lemma MethodDurationExact(attributes: Attributes, v: int)
    requires LongMin <= v <= LongMax
    requires DurationMsAttribute in attributes
    requires attributes[DurationMsAttribute] == if v >= 0 then NatToString(v) else "-" + NatToString(-v)
    ensures MethodRecord(attributes).Success? && MethodRecord(attributes).value.duration == v
  {
    ParseLongRoundTrip(v);
  }

  /** Equal sequences with the same ends have the same middle. */
  lemma CancelEnds(head: string, x: string, y: string, tail: string)
    requires head + x + tail == head + y + tail
    ensures x == y
  {
    var a := head + x + tail;
    assert x == a[|head|..|a| - |tail|];
  }

  /** Appending six pieces one by one appends their concatenation. */
  lemma RegroupTail(p: string, a: string, b: string, c: string, d: string, e: string, f: string)
    ensures p + a + b + c + d + e + f == p + (a + b + c + d + e + f)
  {
  }

  /** For the same header, notes with different method counts differ: the
      count can be read back from the note. */
  lemma NoteRecordsMethodCount(testName: Option<string>, m: nat, n: nat, durationMs: Option<string>,
                               startedAt: Option<string>, finishedAt: Option<string>)
    ensures m != n ==>
      Note(testName, m, durationMs, startedAt, finishedAt) != Note(testName, n, durationMs, startedAt, finishedAt)
  {
    var head := "TestNG Test name: " + JavaString(testName) + ", Number of methods: ";
    var tail := ", Duration in ms: " + JavaString(durationMs) + ", Started at: " + JavaString(startedAt) +
                ", Finished at: " + JavaString(finishedAt);
    forall c: nat ensures Note(testName, c, durationMs, startedAt, finishedAt) == head + NatToString(c) + tail {
      RegroupTail(head + NatToString(c), ", Duration in ms: ", JavaString(durationMs), ", Started at: ",
                  JavaString(startedAt), ", Finished at: ", JavaString(finishedAt));
    }
    if Note(testName, m, durationMs, startedAt, finishedAt) == Note(testName, n, durationMs, startedAt, finishedAt) {
      CancelEnds(head, NatToString(m), NatToString(n), tail);
      NatToStringInjective(m, n);
    }
  }

  // ---------------------------------------------------------------------
  // A class and its methods
  // ---------------------------------------------------------------------

  /** The events of a class body: each method element is opened and then
      closed, in order. */
  function MethodEvents(methods: seq<Attributes>): (events: seq<Event>)
    ensures |events| == 2 * |methods|
    ensures forall k :: 0 <= k < |methods| ==>
      events[2 * k] == Open(MethodTag, methods[k]) && events[2 * k + 1] == Close(MethodTag)
  {
    if methods == [] then []
    else
      MethodEvents(methods[..|methods| - 1]) + [Open(MethodTag, methods[|methods| - 1]), Close(MethodTag)]
  }

  /** A method element with a duration `Long.parseLong` accepts and a status. */
  predicate WellFormedMethod(a: Attributes) {
    ParseLong(GetValue(a, DurationMsAttribute)).Some? && StatusAttribute in a
  }

  predicate WellFormedMethods(methods: seq<Attributes>) {
    forall i :: 0 <= i < |methods| ==> WellFormedMethod(methods[i])
  }

  /** The records built from well-formed method elements, in order. */
  function Records(methods: seq<Attributes>): (records: seq<TestMethod>)
    requires WellFormedMethods(methods)
    ensures |records| == |methods|
    ensures forall i :: 0 <= i < |methods| ==> Success(records[i]) == MethodRecord(methods[i])
  {
    if methods == [] then []
    else Records(methods[..|methods| - 1]) + [MethodRecord(methods[|methods| - 1]).value]
  }

  /** The status the TestLink case receives after the given methods: FAILED
      when some method's status is not exactly "PASS". */
  function ClassStatus(methods: seq<Attributes>): ExecutionStatus
    requires WellFormedMethods(methods)
  {
    if forall i :: 0 <= i < |methods| ==> methods[i][StatusAttribute] == PassStatus then Passed else Failed
  }

  /** The header fields and configuration that a class body never touches. */
  predicate SameHeader(s: State, t: State) {
    && t.keyCustomFieldName == s.keyCustomFieldName
    && t.testName == s.testName
    && t.durationMs == s.durationMs
    && t.startedAt == s.startedAt
    && t.finishedAt == s.finishedAt
    && t.className == s.className
    && t.report.build == s.report.build
    && t.report.testPlan == s.report.testPlan
  }

  /** Writing a status onto a test case does not change which case matches. */
  lemma StatusWriteKeepsMatch(cases: seq<TestCase>, key: Option<string>, className: string, i: nat, j: nat, status: ExecutionStatus)
    requires j < |cases|
    ensures IsLastMatch(cases[j := cases[j].(status := status)], key, className, i) <==>
            IsLastMatch(cases, key, className, i)
  {
    var updated := cases[j := cases[j].(status := status)];
    assert forall k :: 0 <= k < |cases| ==> updated[k].customFields == cases[k].customFields;
    assert forall k :: 0 <= k < |cases| ==> (Matches(updated[k], key, className) <==> Matches(cases[k], key, className));
  }

  /** The status a class gets from the methods recorded so far. */
  function StatusOf(methods: seq<TestMethod>): ExecutionStatus {
    if AllPass(methods) then Passed else Failed
  }

  /** The state `t` with method list `ms` after case `i` was matched: that
      case carries the status of `ms` and the result reports `|ms|` methods
      with the header fields of `t`. */
  function Correlated(t: State, i: nat, ms: seq<TestMethod>): State
    requires i < |t.report.testCases|
  {
    var found := t.report.testCases[i].(status := StatusOf(ms));
    t.(methods := Some(ms),
       report := t.report.(testCases := t.report.testCases[i := found]),
       result := Some(TestResult(found, t.report.build, t.report.testPlan,
         Note(t.testName, |ms|, t.durationMs, t.startedAt, t.finishedAt))))
  }

  /** A second correlation with the same case replaces the first entirely. */
  lemma CorrelatedTwice(t: State, i: nat, first: seq<TestMethod>, second: seq<TestMethod>)
    requires i < |t.report.testCases|
    ensures Correlated(Correlated(t, i, first), i, second) == Correlated(t, i, second)
  {
    var cases := t.report.testCases;
    var u := Correlated(t, i, first);
    assert u.report.testCases[i := u.report.testCases[i].(status := StatusOf(second))] ==
           cases[i := cases[i].(status := StatusOf(second))];
  }

  /** Opening then closing one well-formed method element inside a named
      class: the record is appended; without a match nothing else changes;
      with a last match, that case alone gets the status of the whole list
      and the result reports the new method count. */
  lemma MethodPairStep(u: State, a: Attributes, name: string)
    requires u.className == Some(name) && u.methods.Some? && StatusesPresent(u.methods.value)
    requires WellFormedMethod(a)
    ensures MethodRecord(a).Success?
    ensures var ms := u.methods.value + [MethodRecord(a).value];
      && StatusesPresent(ms)
      && (NoMatch(u.report.testCases, u.keyCustomFieldName, name) ==>
            Run(u, [Open(MethodTag, a), Close(MethodTag)]) == Success(u.(methods := Some(ms))))
      && forall i: nat :: IsLastMatch(u.report.testCases, u.keyCustomFieldName, name, i) ==>
           Run(u, [Open(MethodTag, a), Close(MethodTag)]) == Success(Correlated(u, i, ms))
  {
    var m := MethodRecord(a).value;
    var ms := u.methods.value + [m];
    var afterOpen := u.(methods := Some(ms));
    assert StartElement(u, MethodTag, a) == Success(afterOpen);
    assert StatusesPresent(ms) by {
      assert m.status == GetValue(a, StatusAttribute);
    }
    var events := [Open(MethodTag, a), Close(MethodTag)];
    assert Run(u, events) == EndElement(afterOpen, MethodTag) by {
      assert events[1..] == [Close(MethodTag)];
      assert Run(afterOpen, [Close(MethodTag)]) == EndElement(afterOpen, MethodTag) by {
        assert [Close(MethodTag)][1..] == [];
      }
    }
  }

  /** The last method element of a non-empty class body, split off. */
  lemma SplitLast(methods: seq<Attributes>)
    requires |methods| > 0 && WellFormedMethods(methods)
    ensures var n := |methods| - 1;
      && WellFormedMethods(methods[..n])
      && WellFormedMethod(methods[n])
      && Records(methods) == Records(methods[..n]) + [MethodRecord(methods[n]).value]
      && MethodEvents(methods) == MethodEvents(methods[..n]) + [Open(MethodTag, methods[n]), Close(MethodTag)]
  {
  }

  /** The records of well-formed elements all carry a status. */
  lemma RecordsHaveStatuses(methods: seq<Attributes>)
    requires WellFormedMethods(methods)
    ensures StatusesPresent(Records(methods))
  {
    var records := Records(methods);
    forall i | 0 <= i < |records| ensures records[i].status.Some? {
      assert WellFormedMethod(methods[i]);
    }
  }

  /** A class body whose class no test case matches only records its
      methods: no status is written and the retained result is kept. */
  lemma {:induction false} MethodsRunNoMatch(t: State, methods: seq<Attributes>, name: string)
    requires t.className == Some(name) && t.methods == Some([])
    requires WellFormedMethods(methods)
    requires NoMatch(t.report.testCases, t.keyCustomFieldName, name)
    ensures Run(t, MethodEvents(methods)) == Success(t.(methods := Some(Records(methods))))
    decreases |methods|
  {
    if methods != [] {
      var n := |methods| - 1;
      SplitLast(methods);
      MethodsRunNoMatch(t, methods[..n], name);
      RunAppend(t, MethodEvents(methods[..n]), [Open(MethodTag, methods[n]), Close(MethodTag)]);
      RecordsHaveStatuses(methods[..n]);
      MethodPairStep(t.(methods := Some(Records(methods[..n]))), methods[n], name);
    }
  }

  /** A class body whose class matches test case `i` last: after its
      methods, that case alone carries the status of every method recorded,
      and the result reports that many methods. */
  lemma {:induction false} MethodsRunMatch(t: State, methods: seq<Attributes>, name: string, i: nat)
    requires t.className == Some(name) && t.methods == Some([])
    requires WellFormedMethods(methods) && |methods| > 0
    requires IsLastMatch(t.report.testCases, t.keyCustomFieldName, name, i)
    ensures Run(t, MethodEvents(methods)) == Success(Correlated(t, i, Records(methods)))
    decreases |methods|
  {
    var n := |methods| - 1;
    SplitLast(methods);
    RecordsHaveStatuses(methods[..n]);
    if n == 0 {
      assert Run(t, MethodEvents(methods[..n])) == Success(t);
      MatchStep(t, t, methods, name, i);
    } else {
      MethodsRunMatch(t, methods[..n], name, i);
      var u := Correlated(t, i, Records(methods[..n]));
      StatusWriteKeepsMatch(t.report.testCases, t.keyCustomFieldName, name, i, i, StatusOf(Records(methods[..n])));
      CorrelatedTwice(t, i, Records(methods[..n]), Records(methods));
      MatchStep(t, u, methods, name, i);
    }
  }

  /** The inductive step of `MethodsRunMatch`: the last method element of
      the body, run from the state `u` the earlier ones reached. */
  lemma MatchStep(t: State, u: State, methods: seq<Attributes>, name: string, i: nat)
    requires |methods| > 0 && WellFormedMethods(methods)
    requires var n := |methods| - 1;
      && WellFormedMethods(methods[..n])
      && WellFormedMethod(methods[n])
      && Records(methods) == Records(methods[..n]) + [MethodRecord(methods[n]).value]
      && MethodEvents(methods) == MethodEvents(methods[..n]) + [Open(MethodTag, methods[n]), Close(MethodTag)]
      && Run(t, MethodEvents(methods[..n])) == Success(u)
      && StatusesPresent(Records(methods[..n]))
    requires u.className == Some(name) && u.methods == Some(Records(methods[..|methods| - 1]))
    requires IsLastMatch(u.report.testCases, u.keyCustomFieldName, name, i)
    requires i < |t.report.testCases|
    requires Correlated(u, i, Records(methods)) == Correlated(t, i, Records(methods))
    ensures Run(t, MethodEvents(methods)) == Success(Correlated(t, i, Records(methods)))
  {
    var n := |methods| - 1;
    var pair := [Open(MethodTag, methods[n]), Close(MethodTag)];
    RunAppend(t, MethodEvents(methods[..n]), pair);
    MethodPairStep(u, methods[n], name);
  }

  /** The index of the last matching test case, at or after a known match. */
  function LastMatch(cases: seq<TestCase>, key: Option<string>, className: string, known: nat): (i: nat)
    requires known < |cases| && Matches(cases[known], key, className)
    ensures IsLastMatch(cases, key, className, i)
    decreases |cases| - known
  {
    if exists j :: known < j < |cases| && Matches(cases[j], key, className) then
      var j :| known < j < |cases| && Matches(cases[j], key, className);
      LastMatch(cases, key, className, j)
    else known
  }

  /** Either no test case matches the class, or there is a last one that does. */
  lemma MatchOrNone(cases: seq<TestCase>, key: Option<string>, className: string)
    ensures NoMatch(cases, key, className) || exists i: nat :: IsLastMatch(cases, key, className, i)
  {
    if !NoMatch(cases, key, className) {
      var j :| 0 <= j < |cases| && Matches(cases[j], key, className);
      var i := LastMatch(cases, key, className, j);
    }
  }

  /** The status computed over the records is the status read off the
      elements' `status` attributes. */
  lemma StatusOfRecords(methods: seq<Attributes>)
    requires WellFormedMethods(methods)
    ensures StatusOf(Records(methods)) == ClassStatus(methods)
  {
    var records := Records(methods);
    forall i | 0 <= i < |methods|
      ensures records[i].status == Some(methods[i][StatusAttribute])
    {
      assert WellFormedMethod(methods[i]);
    }
  }

  /** A whole class: its element opens and each of its n well-formed method
      elements is opened then closed. The method list holds the n records.
      If no test case matches the class, or it has no methods, no status is
      written and the previous result is kept. Otherwise the last matching case alone gets
      FAILED when some method's status is not exactly "PASS" and PASSED
      otherwise, and the result reports n methods with the header of the
      most recent `test` element. */
  lemma ClassRun(s: State, classAttributes: Attributes, methods: seq<Attributes>)
    requires NameAttribute in classAttributes
    requires WellFormedMethods(methods)
    ensures var name := classAttributes[NameAttribute];
      var r := Run(s, [Open(ClassTag, classAttributes)] + MethodEvents(methods));
      && r.Success?
      && r.value.className == Some(name)
      && r.value.methods == Some(Records(methods))
      && (NoMatch(s.report.testCases, s.keyCustomFieldName, name) ==>
            r.value == s.(className := Some(name), methods := Some(Records(methods))))
      && (|methods| == 0 ==> r.value == s.(className := Some(name), methods := Some([])))
      && forall i: nat :: |methods| > 0 && IsLastMatch(s.report.testCases, s.keyCustomFieldName, name, i) ==>
           var found := s.report.testCases[i].(status := ClassStatus(methods));
           && r.value == s.(className := Some(name), methods := Some(Records(methods)),
                            report := s.report.(testCases := r.value.report.testCases), result := r.value.result)
           && r.value.report.testCases == s.report.testCases[i := found]
           && r.value.result == Some(TestResult(found, s.report.build, s.report.testPlan,
                Note(s.testName, |methods|, s.durationMs, s.startedAt, s.finishedAt)))
  {
    var name := classAttributes[NameAttribute];
    var t := s.(methods := Some([]), className := Some(name));
    var events := [Open(ClassTag, classAttributes)] + MethodEvents(methods);
    assert Run(s, events) == Run(t, MethodEvents(methods)) by {
      assert events[0] == Open(ClassTag, classAttributes);
      assert events[1..] == MethodEvents(methods);
      assert Step(s, events[0]) == Success(t);
    }
    StatusOfRecords(methods);
    MatchOrNone(s.report.testCases, s.keyCustomFieldName, name);
    if NoMatch(s.report.testCases, s.keyCustomFieldName, name) {
      MethodsRunNoMatch(t, methods, name);
    } else {
      var i: nat :| IsLastMatch(s.report.testCases, s.keyCustomFieldName, name, i);
      if |methods| > 0 {
        MethodsRunMatch(t, methods, name, i);
      } else {
        assert Run(t, MethodEvents(methods)) == Success(t);
      }
    }
    forall i: nat | |methods| > 0 && IsLastMatch(s.report.testCases, s.keyCustomFieldName, name, i)
      ensures Run(s, events) == Success(Correlated(t, i, Records(methods)))
    {
      MethodsRunMatch(t, methods, name, i);
    }
  }

  /** Closing elements other than `test-method` changes no state at all. */
  lemma {:induction false} IgnoredCloses(s: State, events: seq<Event>)
    requires forall k :: 0 <= k < |events| ==> events[k].Close? && events[k].tag != MethodTag
    ensures Run(s, events) == Success(s)
    decreases |events|
  {
    if events != [] {
      assert Step(s, events[0]) == Success(s);
      IgnoredCloses(s, events[1..]);
    }
  }

  // ---------------------------------------------------------------------
  // What every traversal preserves
  // ---------------------------------------------------------------------

  /** The retained result agrees with the report: same build and test plan,
      its test case carries PASSED or FAILED, and it is, status included,
      one of the report's cases. In Java the result holds a reference to
      the very case whose status was written; together with `EndElement`
      replacing the result on every status write, this says the copy kept
      here never goes stale. */
  predicate Coherent(s: State) {
    s.result.Some? ==>
      && s.result.value.build == s.report.build
      && s.result.value.testPlan == s.report.testPlan
      && (s.result.value.testCase.status == Passed || s.result.value.testCase.status == Failed)
      && exists i :: 0 <= i < |s.report.testCases| && s.report.testCases[i] == s.result.value.testCase
  }

  /** A class name is only ever set together with a method list. */
  predicate Scoped(s: State) {
    s.className.Some? ==> s.methods.Some?
  }

  /** In a scoped state the method list is present whenever a match is
      found, so that null dereference cannot happen, and every event leaves
      the state scoped. */
  lemma ScopedNeverLacksMethods(s: State, e: Event)
    requires Scoped(s)
    ensures Step(s, e) != Failure(NullPointer(MethodListNull))
    ensures Step(s, e).Success? ==> Scoped(Step(s, e).value)
  {
  }

  /** One event keeps the retained result coherent and the state scoped,
      never changes the configured key, the build or the test plan, and
      changes the test cases in status only. */
  lemma StepPreserves(s: State, e: Event)
    requires Coherent(s) && Scoped(s)
    ensures Step(s, e).Success? ==>
      var t := Step(s, e).value;
      && Coherent(t)
      && Scoped(t)
      && t.keyCustomFieldName == s.keyCustomFieldName
      && t.report.build == s.report.build
      && t.report.testPlan == s.report.testPlan
      && SameCasesUpToStatus(s.report.testCases, t.report.testCases)
  {
    if e.Close? && e.tag == MethodTag {
      CloseMethodPreserves(s);
    }
  }

  /** The close of a `test-method` element, the only event that writes the
      report or the result, keeps the invariants. */
  lemma CloseMethodPreserves(s: State)
    requires Coherent(s) && Scoped(s)
    ensures CloseMethod(s).Success? ==>
      var t := CloseMethod(s).value;
      && Coherent(t)
      && t == s.(report := t.report, result := t.result)
      && t.report.build == s.report.build
      && t.report.testPlan == s.report.testPlan
      && SameCasesUpToStatus(s.report.testCases, t.report.testCases)
  {
    match Correlate(s.report.testCases, s.keyCustomFieldName, s.className)
    case Failure(_) =>
    case Success(None) =>
    case Success(Some(i)) =>
      if CloseMethod(s).Success? {
        var t := CloseMethod(s).value;
        assert i < |s.report.testCases| && t.report.testCases[i] == t.result.value.testCase;
      }
  }

  /** A whole traversal keeps the same invariants as each of its events. */
  lemma {:induction false} RunPreserves(s: State, events: seq<Event>)
    requires Coherent(s) && Scoped(s)
    ensures Run(s, events).Success? ==>
      var t := Run(s, events).value;
      && Coherent(t)
      && Scoped(t)
      && t.keyCustomFieldName == s.keyCustomFieldName
      && t.report.build == s.report.build
      && t.report.testPlan == s.report.testPlan
      && SameCasesUpToStatus(s.report.testCases, t.report.testCases)
    decreases |events|
  {
    if events != [] {
      StepPreserves(s, events[0]);
      match Step(s, events[0])
      case Failure(_) =>
      case Success(next) =>
        RunPreserves(next, events[1..]);
    }
  }

  /** A freshly constructed handler is coherent and scoped, so every state
      a traversal reaches from it is, and no traversal from it ever fails
      for want of a method list after a match. */
  lemma InitInvariants(report: Report, key: Option<string>, events: seq<Event>)
    ensures Coherent(Init(report, key)) && Scoped(Init(report, key))
    ensures Run(Init(report, key), events).Success? ==>
      var t := Run(Init(report, key), events).value;
      && Coherent(t)
      && Scoped(t)
      && t.report.build == report.build
      && t.report.testPlan == report.testPlan
      && SameCasesUpToStatus(report.testCases, t.report.testCases)
  {
    RunPreserves(Init(report, key), events);
  }

  /** From a scoped state no traversal fails for want of a method list
      after a match: of the four null dereferences, only the other three can
      happen. */
  lemma {:induction false} RunNeverLacksMethods(s: State, events: seq<Event>)
    requires Scoped(s)
    ensures Run(s, events) != Failure(NullPointer(MethodListNull))
    decreases |events|
  {
    if events != [] {
      ScopedNeverLacksMethods(s, events[0]);
      match Step(s, events[0])
      case Failure(_) =>
      case Success(next) =>
        RunNeverLacksMethods(next, events[1..]);
    }
  }

  /** Only the close of a `test-method` element can change the retained
      result: a traversal without one ends with the result it started with,
      so `getTestResult` stays null until a method close finds a match. */
  lemma {:induction false} ResultNeedsMethodClose(s: State, events: seq<Event>)
    requires forall k :: 0 <= k < |events| ==> events[k] != Close(MethodTag)
    ensures Run(s, events).Success? ==> GetTestResult(Run(s, events).value) == GetTestResult(s)
    decreases |events|
  {
    if events != [] {
      match Step(s, events[0])
      case Failure(_) =>
      case Success(next) =>
        assert next.result == s.result;
        ResultNeedsMethodClose(next, events[1..]);
    }
  }

  // ---------------------------------------------------------------------
  // Traversals that abort
  // ---------------------------------------------------------------------

  /** Traversing `a + b` is traversing `a` and then, unless it aborted, `b`
      from where `a` ended. */
  lemma {:induction false} TraverseAppend(s: State, a: seq<Event>, b: seq<Event>)
    ensures Traverse(s, a + b) ==
      if Traverse(s, a).error.None? then Traverse(Traverse(s, a).state, b) else Traverse(s, a)
    decreases |a|
  {
    if a == [] {
      assert a + b == b;
    } else {
      assert (a + b)[0] == a[0];
      assert (a + b)[1..] == a[1..] + b;
      match Step(s, a[0])
      case Failure(e) =>
      case Success(next) =>
        TraverseAppend(next, a[1..], b);
    }
  }

  /** An aborted traversal stops at its first failing event: the state it
      keeps is what the events before that one produced, and that event,
      run from it, raises the exception. */
  lemma {:induction false} TraverseStopsAtFailure(s: State, events: seq<Event>)
    ensures var o := Traverse(s, events);
      o.error.Some? ==>
        exists k :: 0 <= k < |events| &&
          Run(s, events[..k]) == Success(o.state) && Step(o.state, events[k]) == Failure(o.error.value)
    decreases |events|
  {
    var o := Traverse(s, events);
    if events != [] && o.error.Some? {
      match Step(s, events[0])
      case Failure(e) =>
        assert events[..0] == [];
      case Success(next) =>
        TraverseStopsAtFailure(next, events[1..]);
        var rest := events[1..];
        var k :| 0 <= k < |rest| && Run(next, rest[..k]) == Success(o.state) && Step(o.state, rest[k]) == Failure(o.error.value);
        var p := events[..k + 1];
        assert p[0] == events[0] && p[1..] == rest[..k];
        assert Run(s, p) == Run(next, p[1..]);
        assert events[k + 1] == rest[k];
    }
  }

  /** Whether or not the traversal aborts, the state it leaves keeps the
      invariants: the statuses written before an exception stay on the
      report's cases, and the retained result still agrees with them. */
  lemma {:induction false} TraversePreserves(s: State, events: seq<Event>)
    requires Coherent(s) && Scoped(s)
    ensures var t := Traverse(s, events).state;
      && Coherent(t)
      && Scoped(t)
      && t.keyCustomFieldName == s.keyCustomFieldName
      && t.report.build == s.report.build
      && t.report.testPlan == s.report.testPlan
      && SameCasesUpToStatus(s.report.testCases, t.report.testCases)
    decreases |events|
  {
    if events != [] {
      StepPreserves(s, events[0]);
      match Step(s, events[0])
      case Failure(_) =>
      case Success(next) =>
        TraversePreserves(next, events[1..]);
    }
  }

  /** What `getTestResult` returns after any traversal from a fresh handler,
      aborted or not: null, or a result with the report's build and test
      plan whose test case, with PASSED or FAILED, is one of the report's
      cases as they then stand. */
  lemma TestResultAfterTraversal(report: Report, key: Option<string>, events: seq<Event>)
    ensures var t := Traverse(Init(report, key), events).state;
      var r := GetTestResult(t);
      r.Some? ==>
        && r.value.build == report.build
        && r.value.testPlan == report.testPlan
        && (r.value.testCase.status == Passed || r.value.testCase.status == Failed)
        && exists i :: 0 <= i < |t.report.testCases| && i < |report.testCases| &&
             t.report.testCases[i] == r.value.testCase &&
             r.value.testCase.id == report.testCases[i].id &&
             r.value.testCase.customFields == report.testCases[i].customFields
  {
    TraversePreserves(Init(report, key), events);
  }

  // ---------------------------------------------------------------------
  // Worked examples
  // ---------------------------------------------------------------------

  const ExampleBuild: Build := Build(1, "build-1")
  const ExamplePlan: TestPlan := TestPlan(1, "plan-1")
  const ExampleFields: seq<CustomField> := [CustomField("EXTERNAL_ID", Some("com.example.FooTest"))]

  /** A report with one test case keyed to `com.example.FooTest`. */
  function ExampleReport(): Report {
    Report(ExampleBuild, ExamplePlan, [TestCase(1, ExampleFields, NotRun)])
  }

  const ExampleTest: Attributes :=
    map["name" := "Suite1", "duration-ms" := "120", "started-at" := "t0", "finished-at" := "t1"]

  /** One method element with the given status. */
  function ExampleMethod(status: string): Attributes {
    map["name" := "testA", "duration-ms" := "50", "status" := status, "signature" := "testA()",
        "is-config" := "false", "started-at" := "t0", "finished-at" := "t0a"]
  }

  /** A document with one test, one class and one method. */
  function ExampleEvents(className: string, status: string): seq<Event> {
    [Open(TestTag, ExampleTest), Open(ClassTag, map["name" := className]),
     Open(MethodTag, ExampleMethod(status)), Close(MethodTag), Close(ClassTag), Close(TestTag)]
  }

  lemma ExampleMethodWellFormed(status: string)
    ensures WellFormedMethods([ExampleMethod(status)])
  {
    var d := GetValue(ExampleMethod(status), DurationMsAttribute);
    assert d == Some("50");
    assert "50"[..1] == "5" && "5"[..0] == "";
    assert DigitsValue("50") == 50;
    assert ParseLong(d) == Some(50);
  }

  /** The state after the `test` element of the examples opened. */
  function ExampleHeader(key: Option<string>): State {
    Init(ExampleReport(), key).(testName := Some("Suite1"), durationMs := Some("120"),
                                startedAt := Some("t0"), finishedAt := Some("t1"))
  }

  /** The example document is its header, then a class run, then closes
      that change nothing. */
  lemma ExampleShape(key: Option<string>, className: string, status: string)
    ensures WellFormedMethods([ExampleMethod(status)])
    ensures Run(Init(ExampleReport(), key), ExampleEvents(className, status)) ==
      Run(ExampleHeader(key), [Open(ClassTag, map["name" := className])] + MethodEvents([ExampleMethod(status)]))
  {
    var s0 := Init(ExampleReport(), key);
    var s1 := ExampleHeader(key);
    var events := ExampleEvents(className, status);
    var body := [Open(ClassTag, map["name" := className])] + MethodEvents([ExampleMethod(status)]);
    ExampleMethodWellFormed(status);
    assert Step(s0, events[0]) == Success(s1);
    assert Run(s0, events) == Run(s1, events[1..]);
    assert events[1..] == body + [Close(ClassTag), Close(TestTag)];
    RunAppend(s1, body, [Close(ClassTag), Close(TestTag)]);
    ClassRun(s1, map["name" := className], [ExampleMethod(status)]);
    IgnoredCloses(Run(s1, body).value, [Close(ClassTag), Close(TestTag)]);
  }

  /** The note template filled with the example's header. */
  lemma ExampleNoteParts()
    ensures Note(Some("Suite1"), 1, Some("120"), Some("t0"), Some("t1")) ==
      "TestNG Test name: " + "Suite1" + ", Number of methods: " + "1" + ", Duration in ms: " + "120" +
      ", Started at: " + "t0" + ", Finished at: " + "t1"
  {
    assert NatToString(1) == "1";
  }

  // The example note is assembled piece by piece: each lemma appends two
  // pieces of the template to the text the previous one produced.

  lemma ExampleNoteName()
    ensures "TestNG Test name: " + "Suite1" + ", Number of methods: " + "1" ==
      "TestNG Test name: Suite1, Number of methods: 1"
  {
    var p := "TestNG Test name: " + "Suite1";
    assert p == "TestNG Test name: Suite1";
    p := p + ", Number of methods: ";
    assert p == "TestNG Test name: Suite1, Number of methods: ";
  }

  lemma ExampleNoteDuration()
    ensures "TestNG Test name: Suite1, Number of methods: 1" + ", Duration in ms: " + "120" ==
      "TestNG Test name: Suite1, Number of methods: 1, Duration in ms: 120"
  {
    var p := "TestNG Test name: Suite1, Number of methods: 1" + ", Duration in ms: ";
    assert p == "TestNG Test name: Suite1, Number of methods: 1, Duration in ms: ";
  }

  lemma ExampleNoteStarted()
    ensures "TestNG Test name: Suite1, Number of methods: 1, Duration in ms: 120" + ", Started at: " + "t0" ==
      "TestNG Test name: Suite1, Number of methods: 1, Duration in ms: 120, Started at: t0"
  {
    var p := "TestNG Test name: Suite1, Number of methods: 1, Duration in ms: 120" + ", Started at: ";
    assert p == "TestNG Test name: Suite1, Number of methods: 1, Duration in ms: 120, Started at: ";
  }

  lemma ExampleNoteFinished()
    ensures "TestNG Test name: Suite1, Number of methods: 1, Duration in ms: 120, Started at: t0" + ", Finished at: " + "t1" ==
      "TestNG Test name: Suite1, Number of methods: 1, Duration in ms: 120, Started at: t0, Finished at: t1"
  {
    var p := "TestNG Test name: Suite1, Number of methods: 1, Duration in ms: 120, Started at: t0" + ", Finished at: ";
    assert p == "TestNG Test name: Suite1, Number of methods: 1, Duration in ms: 120, Started at: t0, Finished at: ";
  }

  /** The note of the examples, written out. */
  lemma ExampleNote()
    ensures Note(Some("Suite1"), 1, Some("120"), Some("t0"), Some("t1")) ==
      "TestNG Test name: Suite1, Number of methods: 1, Duration in ms: 120, Started at: t0, Finished at: t1"
  {
    ExampleNoteParts();
    ExampleNoteName();
    ExampleNoteDuration();
    ExampleNoteStarted();
    ExampleNoteFinished();
  }

  /** A method element like the passing one, but whose duration is not a
      number. */
  function ExampleBadMethod(): Attributes {
    ExampleMethod("PASS")["duration-ms" := "x"]
  }

  /** The first four events of the matched, passing example: the test, the
      class and its method, opened and closed, leave the only test case
      PASSED. */
  lemma ExampleMatchedPrefix()
    ensures var r := Run(Init(ExampleReport(), Some("EXTERNAL_ID")), ExampleEvents("com.example.FooTest", "PASS")[..4]);
      && r.Success?
      && r.value.report.testCases == [TestCase(1, ExampleFields, Passed)]
  {
    var key := Some("EXTERNAL_ID");
    ExamplePrefixShape(key);
    ExampleStatus("PASS");
    ExampleKeyed();
    ClassRun(ExampleHeader(key), map["name" := "com.example.FooTest"], [ExampleMethod("PASS")]);
  }

  /** The first four events of the example are its header and then a class
      run with the one method. */
  lemma ExamplePrefixShape(key: Option<string>)
    ensures Run(Init(ExampleReport(), key), ExampleEvents("com.example.FooTest", "PASS")[..4]) ==
      Run(ExampleHeader(key), [Open(ClassTag, map["name" := "com.example.FooTest"])] + MethodEvents([ExampleMethod("PASS")]))
  {
    var s0 := Init(ExampleReport(), key);
    var a := ExampleEvents("com.example.FooTest", "PASS")[..4];
    var methods := [ExampleMethod("PASS")];
    assert MethodEvents(methods) == [Open(MethodTag, methods[0]), Close(MethodTag)] by {
      assert methods[..0] == [];
    }
    assert a[1..] == [Open(ClassTag, map["name" := "com.example.FooTest"])] + MethodEvents(methods);
    assert Step(s0, a[0]) == Success(ExampleHeader(key));
  }

  /** The matched class of the examples, its passing method closed, then a
      second method element whose duration does not parse: the traversal
      aborts with the parse error, and the PASSED status the first close
      wrote stays on the test case. */
  lemma ExampleAbortKeepsStatus()
    ensures var events := ExampleEvents("com.example.FooTest", "PASS")[..4] + [Open(MethodTag, ExampleBadMethod())];
      var o := Traverse(Init(ExampleReport(), Some("EXTERNAL_ID")), events);
      && o.error == Some(NumberFormat(Some("x")))
      && o.state.report.testCases == [TestCase(1, ExampleFields, Passed)]
  {
    var s0 := Init(ExampleReport(), Some("EXTERNAL_ID"));
    var a := ExampleEvents("com.example.FooTest", "PASS")[..4];
    var bad := [Open(MethodTag, ExampleBadMethod())];
    ExampleMatchedPrefix();
    var t := Run(s0, a).value;
    TraverseAppend(s0, a, bad);
    assert Traverse(s0, a) == Outcome(t, None);
    assert !IsDigit('x');
    assert GetValue(ExampleBadMethod(), DurationMsAttribute) == Some("x");
    assert Step(t, bad[0]) == Failure(NumberFormat(Some("x")));
    assert Traverse(t, bad) == Outcome(t, Some(NumberFormat(Some("x"))));
  }

  /** The example class is keyed to the only test case of the report. */
  lemma ExampleKeyed()
    ensures IsLastMatch(ExampleReport().testCases, Some("EXTERNAL_ID"), "com.example.FooTest", 0)
  {
    var key := Some("EXTERNAL_ID");
    assert IsKeyField(ExampleFields[0], key);
  }

  /** The example method element decides the status on its own. */
  lemma ExampleStatus(status: string)
    ensures WellFormedMethods([ExampleMethod(status)])
    ensures ClassStatus([ExampleMethod(status)]) == if status == "PASS" then Passed else Failed
  {
    ExampleMethodWellFormed(status);
    var methods := [ExampleMethod(status)];
    assert methods[0][StatusAttribute] == status;
    assert (forall i :: 0 <= i < |methods| ==> methods[i][StatusAttribute] == PassStatus) <==> status == PassStatus;
  }

  /** The matched class: PASSED for a passing method, FAILED otherwise, and
      the note fills the template with the header of the `test` element. */
  lemma ExampleMatched(status: string)
    ensures var r := Run(Init(ExampleReport(), Some("EXTERNAL_ID")), ExampleEvents("com.example.FooTest", status));
      && r.Success?
      && GetTestResult(r.value) == Some(TestResult(
           TestCase(1, ExampleFields, if status == "PASS" then Passed else Failed),
           ExampleBuild, ExamplePlan,
           "TestNG Test name: Suite1, Number of methods: 1, Duration in ms: 120, Started at: t0, Finished at: t1"))
  {
    var key := Some("EXTERNAL_ID");
    var s1 := ExampleHeader(key);
    var methods := [ExampleMethod(status)];
    var classAttributes := map["name" := "com.example.FooTest"];
    ExampleShape(key, "com.example.FooTest", status);
    ExampleStatus(status);
    ExampleKeyed();
    ClassRun(s1, classAttributes, methods);
    ExampleNote();
    var r := Run(s1, [Open(ClassTag, classAttributes)] + MethodEvents(methods));
    var found := s1.report.testCases[0].(status := ClassStatus(methods));
    assert r.value.result == Some(TestResult(found, s1.report.build, s1.report.testPlan,
      Note(s1.testName, 1, s1.durationMs, s1.startedAt, s1.finishedAt)));
  }

  /** A class no test case is keyed to leaves the result null and the report
      unchanged. */
  lemma ExampleUnmatched(status: string)
    ensures var r := Run(Init(ExampleReport(), Some("EXTERNAL_ID")), ExampleEvents("com.example.BarTest", status));
      && r.Success?
      && GetTestResult(r.value) == None
      && r.value.report == ExampleReport()
  {
    var key := Some("EXTERNAL_ID");
    ExampleShape(key, "com.example.BarTest", status);
    ClassRun(ExampleHeader(key), map["name" := "com.example.BarTest"], [ExampleMethod(status)]);
    assert NoMatch(ExampleReport().testCases, key, "com.example.BarTest") by {
      assert ExampleFields[0].value != Some("com.example.BarTest");
    }
  }

  /** Two test cases keyed to the same class, the key written in another
      case: the later one in report order is the one that gets the status,
      and the earlier one is left as it was. */
  lemma ExampleLastMatchWins()
    ensures var cases := [TestCase(1, ExampleFields, NotRun),
                          TestCase(2, [CustomField("external_id", Some("com.example.FooTest"))], NotRun)];
      Correlate(cases, Some("EXTERNAL_ID"), Some("com.example.FooTest")) == Success(Some(1))
  {
    var cases := [TestCase(1, ExampleFields, NotRun),
                  TestCase(2, [CustomField("external_id", Some("com.example.FooTest"))], NotRun)];
    var key := Some("EXTERNAL_ID");
    assert IsKeyField(cases[1].customFields[0], key) by {
      assert FoldCase('E') == 'e' && FoldCase('X') == 'x' && FoldCase('T') == 't' && FoldCase('R') == 'r';
      assert FoldCase('N') == 'n' && FoldCase('A') == 'a' && FoldCase('L') == 'l' && FoldCase('I') == 'i';
      assert FoldCase('D') == 'd' && FoldCase('_') == '_';
    }
    assert Matches(cases[1], key, "com.example.FooTest");
  }

  // ---------------------------------------------------------------------
  // The correlation loops as written
  // ---------------------------------------------------------------------

  /** The nested loops of the correlation as they are written: an outer loop
      over every test case and an inner loop over its custom fields whose
      `break` leaves only the inner loop, so a later hit overwrites `found`.
      They compute exactly the index `Correlate` describes. */
  method FindTestCase(cases: seq<TestCase>, key: Option<string>, className: Option<string>)
    returns (r: Result<Option<nat>, Error>)
    ensures r == Correlate(cases, key, className)
  {
    var found: Option<nat> := None;
    var j := 0;
    while j < |cases|
      invariant 0 <= j <= |cases|
      invariant Correlate(cases[..j], key, className) == Success(found)
    {
      var fields := cases[j].customFields;
      var hit := false;
      var k := 0;
      while k < |fields|
        invariant 0 <= k <= |fields|
        invariant !hit ==> ScanFields(fields, key, className) == ScanFields(fields[k..], key, className)
        invariant hit ==> ScanFields(fields, key, className) == Success(true)
      {
        if IsKeyField(fields[k], key) {
          if className.None? {
            assert cases[..j + 1][..j] == cases[..j];
            return Failure(NullPointer(ClassNameNull));
          }
          if fields[k].value == className {
            hit := true;
            break;
          }
        }
        k := k + 1;
      }
      if hit {
        found := Some(j);
      }
      assert cases[..j + 1][..j] == cases[..j];
      j := j + 1;
    }
    assert cases[..j] == cases;
    return Success(found);
  }
}
