# TestNG report handler of the TestLink plugin, in Dafny

This project models `TestNGXmlHandler`, the part of the Jenkins TestLink plugin
that reads a TestNG results document and correlates it with a TestLink report.
The handler is a SAX callback. Opening a `test`, `class` or `test-method` element
captures that element's attributes. Closing a `test-method` element does four things:
- it looks for the TestLink test case whose key custom field holds the current class name;
- it writes PASSED or FAILED onto that case;
- it builds a note describing the TestNG run;
- it keeps a `TestResult`, which `getTestResult` returns.

The model is a pure reducer. `TestNGHandler.Step(state, event)` takes an
`Open(tag, attributes)` or `Close(tag)` event and returns
`Result<State, Error>`. `TestNGHandler.Run` folds it over a document, and the
first failure aborts the rest of the document, like the exceptions in the
Java handler. `TestNGHandler.Traverse` also keeps the state reached when an
exception aborts the document. Every exception the handler raises comes before
its event writes any field this model keeps (it may already have written
`tempTestMethod`, which is never read), and the statuses earlier events wrote stay on the
report's test cases. So that state is what a caller that catches the exception
still holds.

Files:
- `wrappers.dfy` has `Option` and `Result`. `None` stands for a Java `null`, and
  `Failure` for an exception.
- `javatext.dfy` holds the Java library behaviour the handler depends on:
  `Long.parseLong`, `Boolean.valueOf`, `String.equalsIgnoreCase`, the decimal
  rendering of an `int`, and the `"null"` that concatenation writes for a null string.
- `testlink.dfy` holds the TestLink fields that are read or written: the report,
  its test cases and custom fields, the execution status, and `TestResult`.
- `handler.dfy` is the handler: its constants, `StartElement`, `EndElement`,
  the correlation search, the pass/fail aggregation and the note template.
- `properties.dfy` has properties of whole traversals. These cover a full
  class, invariants every traversal keeps, the imperative form of the search
  loops, and worked examples.

Behaviours of the code that are easy to misread, and how the model treats them:
- **Correlation timing.** Correlation runs on the close of every `test-method`
  element (`TestNGXmlHandler.java:131`), not once when the class closes. So the
  status and method count reflect the methods seen so far. After the last method
  of a class they cover the whole class (`HandlerProperties.ClassRun`). A class
  with no methods is never correlated.
- **Last match wins.** The `break` at line 143 only leaves the inner loop over
  custom fields, and the outer loop over test cases keeps going. The case that
  gets the status is therefore the last matching one in report order, not the
  first (`TestNGHandler.Correlate`, `HandlerProperties.ExampleLastMatchWins`).
- **Null dereferences.** These are explicit `NullPointer` errors, not excluded by
  preconditions:
  - a `test-method` opened before any `class` (line 116);
  - a null class name while some case has a key-named field (line 140);
  - a method without `status` that the aggregation loop reaches (line 153);
  - a match found before any method list exists (line 151). This one cannot
    happen from a fresh handler (`HandlerProperties.RunNeverLacksMethods`).

## Model

| member | source | states |
|---|---|---|
| TestNGHandler.StartElement | src/main/java/hudson/plugins/testlink/parser/TestNGXmlHandler.java:92-117 | Opening `test` overwrites exactly test name, duration, start and finish with the raw attributes (absent gives null) and keeps class, methods, report and result. Opening `class` resets the method list to empty and sets the class name while the header persists. Opening `test-method` appends exactly one record at the end of the list, or fails with the parse error first and otherwise with a null dereference when no class was opened. Any other element changes nothing. |
| TestNGHandler.MethodRecord | src/main/java/hudson/plugins/testlink/parser/TestNGXmlHandler.java:104-115 | The record fails exactly when `Long.parseLong` rejects `duration-ms`; otherwise its duration is the decimal value of that attribute, `isConfig` holds iff `is-config` is present and equals "true" ignoring case, and the other five fields are the attributes as given. |
| HandlerProperties.MethodDurationExact | src/main/java/hudson/plugins/testlink/parser/TestNGXmlHandler.java:107-108 | A `test-method` whose `duration-ms` is a 64-bit value written in decimal is recorded with exactly that value as its duration. |
| JavaText.ParseLongLoop | src/main/java/hudson/plugins/testlink/parser/TestNGXmlHandler.java:107-108 | The digit loop of `Long.parseLong` accumulates the value negatively. It checks `multmin` before multiplying by ten and `limit + digit` before subtracting each digit, so no intermediate value leaves the 64-bit range. It succeeds iff the text is non-null, an optional sign followed by at least one digit, and within the 64-bit range, and the value is then the literal's value. It agrees with `ParseLong` on every input. |
| JavaText.ParseLongRoundTrip | src/main/java/hudson/plugins/testlink/parser/TestNGXmlHandler.java:108 | Every 64-bit value written in decimal, with a '+' or '-' sign as needed, parses back to itself. |
| JavaText.ParseLongShapes | src/main/java/hudson/plugins/testlink/parser/TestNGXmlHandler.java:108 | A missing, empty or sign-only duration is a fatal parse error, and so is any duration with a character other than a digit after the optional sign. Leading zeros are accepted and do not change the value, with or without a sign. |
| JavaText.ParseLongRange | src/main/java/hudson/plugins/testlink/parser/TestNGXmlHandler.java:108 | The largest and smallest 64-bit values parse, and one beyond either end is a fatal parse error. |
| JavaText.ParseBooleanSpellings | src/main/java/hudson/plugins/testlink/parser/TestNGXmlHandler.java:110-111 | A token gives true exactly when it is "true" written in any mix of upper and lower case. Null, "false", "yes" and any token of another length give false. |
| JavaText.EqualsIgnoreCaseIsEquivalence | src/main/java/hudson/plugins/testlink/parser/TestNGXmlHandler.java:138 | The case-insensitive comparison of field name and key is reflexive, symmetric and transitive. |
| TestNGHandler.ScanFields | src/main/java/hudson/plugins/testlink/parser/TestNGXmlHandler.java:136-146 | The inner loop hits iff some field has the key as its name (ignoring case) and the class name as its value (exactly). With a null class name it throws iff some field has the key as its name. |
| TestNGHandler.Correlate | src/main/java/hudson/plugins/testlink/parser/TestNGXmlHandler.java:133-147 | With a class name, the search finds the last test case in report order that has a matching key field, or reports that none does. With a null class name it throws iff some case has a key-named field. |
| HandlerProperties.FindTestCase | src/main/java/hudson/plugins/testlink/parser/TestNGXmlHandler.java:133-147 | The nested loops as written, with the inner-only `break` and the `found` variable overwritten by later hits, compute exactly the outcome of `Correlate`. |
| HandlerProperties.ExampleLastMatchWins | src/main/java/hudson/plugins/testlink/parser/TestNGXmlHandler.java:133-147 | When two cases carry the key field (in different letter case) with the class name, the second in report order is selected. |
| TestNGHandler.Aggregate | src/main/java/hudson/plugins/testlink/parser/TestNGXmlHandler.java:150-158 | PASSED iff every method's status is exactly "PASS". FAILED iff the first method whose status is not "PASS" has a status. A null-pointer error iff that first method has no status. |
| HandlerProperties.AggregateAnyFailure | src/main/java/hudson/plugins/testlink/parser/TestNGXmlHandler.java:150-167 | When every method has a status, the class is FAILED iff some status differs from "PASS", however many do, and PASSED iff all are "PASS". |
| TestNGHandler.EndElement | src/main/java/hudson/plugins/testlink/parser/TestNGXmlHandler.java:131-180 | Closing anything but `test-method` changes nothing. Without a match nothing changes, and that includes a null class name when no case has a key-named field. A null class name while some case has a key-named field throws the null class-name error (line 140). A match before any class is the null method-list error, and a match whose aggregation reaches a method without `status` is the null-status error. With a last match `i`, only case `i` gets a status (FAILED iff some method is not "PASS"), and the result is replaced by that case, the report's build and test plan, and the note template over the current header and method count. Every failure is one of the named null dereferences. |
| HandlerProperties.StatusWriteKeepsMatch | src/main/java/hudson/plugins/testlink/parser/TestNGXmlHandler.java:160-167 | Writing a status onto a test case never changes which case is the last match. |
| HandlerProperties.MethodPairStep | src/main/java/hudson/plugins/testlink/parser/TestNGXmlHandler.java:104-178 | Opening and closing one well-formed method element appends its record. Without a match nothing else changes. With one, the matched case gets the status of the whole list and the note reports the new method count. |
| HandlerProperties.MethodsRunNoMatch | src/main/java/hudson/plugins/testlink/parser/TestNGXmlHandler.java:131-148 | When no case matches the class, a class body only records its methods: no status is written and the previous result is kept. |
| HandlerProperties.MethodsRunMatch | src/main/java/hudson/plugins/testlink/parser/TestNGXmlHandler.java:131-177 | After a non-empty class body whose class matches case `i` last, the handler is in exactly one state. Case `i` carries the status over every method and the result reports the full method count. |
| HandlerProperties.ClassRun | src/main/java/hudson/plugins/testlink/parser/TestNGXmlHandler.java:99-177 | A class with n well-formed methods, each opened then closed, ends with those n records. If some case matches and n > 0, only the last matching case changes, to FAILED iff some `status` attribute is not "PASS". The result's note then reports n methods and the latest `test` header. If no case matches, or n = 0, the report and the result are unchanged. |
| HandlerProperties.IgnoredCloses | src/main/java/hudson/plugins/testlink/parser/TestNGXmlHandler.java:126-131 | Any run of closes of elements other than `test-method` leaves the state exactly as it was. |
| HandlerProperties.StepPreserves | src/main/java/hudson/plugins/testlink/parser/TestNGXmlHandler.java:131-177 | One event keeps the retained result consistent with the report. The result's test case, status included, is one of the report's cases, with the same build and test plan. The event never changes the key, build or plan, and changes test cases in status only. |
| HandlerProperties.CloseMethodPreserves | src/main/java/hudson/plugins/testlink/parser/TestNGXmlHandler.java:148-177 | A `test-method` close changes only the report and the result, keeps the build and test plan, changes test cases in status only, and leaves the result consistent with the report. |
| HandlerProperties.RunPreserves | src/main/java/hudson/plugins/testlink/parser/TestNGXmlHandler.java:131-177 | A whole traversal keeps the same invariants as each of its events. |
| HandlerProperties.InitInvariants | src/main/java/hudson/plugins/testlink/parser/TestNGXmlHandler.java:75-79 | Every state a traversal reaches from a fresh handler has its result consistent with the report and keeps the report's build, test plan and custom fields. |
| HandlerProperties.ScopedNeverLacksMethods | src/main/java/hudson/plugins/testlink/parser/TestNGXmlHandler.java:99-151 | A class name is only ever set together with a fresh method list (lines 101-102), and every event keeps it so. Therefore no event fails by dereferencing a missing method list after a match (line 151). A `test-method` opened before any class still fails at line 116. |
| HandlerProperties.RunNeverLacksMethods | src/main/java/hudson/plugins/testlink/parser/TestNGXmlHandler.java:151 | No traversal from a state whose class name always comes with a method list fails by dereferencing a missing method list after a match. A fresh handler is such a state. |
| TestNGHandler.Traverse | src/main/java/hudson/plugins/testlink/parser/TestNGXmlHandler.java:104-177 | Traversing a document ends without an error exactly when running it succeeds, and then in the same state. Otherwise it ends with the exception that aborted the run. |
| HandlerProperties.TraverseAppend | src/main/java/hudson/plugins/testlink/parser/TestNGXmlHandler.java:104-177 | Traversing two documents in a row is traversing the first and then, unless it aborted, the second from where the first ended. |
| HandlerProperties.TraverseStopsAtFailure | src/main/java/hudson/plugins/testlink/parser/TestNGXmlHandler.java:104-177 | An aborted traversal keeps the state that the events before the failing one produced, and that event, run from this state, raises the reported exception. |
| HandlerProperties.TraversePreserves | src/main/java/hudson/plugins/testlink/parser/TestNGXmlHandler.java:160-177 | Whether or not it aborts, a traversal leaves the retained result consistent with the report, and changes the test cases in status only. So statuses written before an exception survive it. |
| HandlerProperties.TestResultAfterTraversal | src/main/java/hudson/plugins/testlink/parser/TestNGXmlHandler.java:182-185 | After any traversal from a fresh handler, aborted or not, `getTestResult` is null or holds the report's build and test plan. Its test case is then one of the report's cases, with that case's identity and custom fields and a status of PASSED or FAILED. |
| HandlerProperties.ExampleAbortKeepsStatus | src/main/java/hudson/plugins/testlink/parser/TestNGXmlHandler.java:104-108 | In a matched class whose first method passes, a second method whose `duration-ms` is "x" aborts with the parse error of "x". The test case keeps the PASSED status the first close wrote. |
| HandlerProperties.ResultNeedsMethodClose | src/main/java/hudson/plugins/testlink/parser/TestNGXmlHandler.java:182-185 | Without a `test-method` close, `getTestResult` returns at the end of a traversal what it returned at the start. From a fresh handler that is null. |
| JavaText.NatToStringValue | src/main/java/hudson/plugins/testlink/parser/TestNGXmlHandler.java:169-170 | The method count in the note is written as the decimal digits of that count. |
| JavaText.NatToStringInjective | src/main/java/hudson/plugins/testlink/parser/TestNGXmlHandler.java:170 | Different method counts give different count texts in the note. |
| TestNGHandler.Note | src/main/java/hudson/plugins/testlink/parser/TestNGXmlHandler.java:169-173 | The note opens with "TestNG Test name: " and the test name, and closes with ", Finished at: " and the finish time. A null field is written as "null". |
| HandlerProperties.NoteRecordsMethodCount | src/main/java/hudson/plugins/testlink/parser/TestNGXmlHandler.java:169-170 | With the same header, notes for different method counts are different, so the count can be read back from the note. |
| HandlerProperties.ExampleNote | src/main/java/hudson/plugins/testlink/parser/TestNGXmlHandler.java:169-173 | The note template with test name Suite1, one method, duration 120, start t0 and finish t1 is exactly "TestNG Test name: Suite1, Number of methods: 1, Duration in ms: 120, Started at: t0, Finished at: t1". |
| HandlerProperties.ExampleMatched | src/main/java/hudson/plugins/testlink/parser/TestNGXmlHandler.java:169-177 | For a one-test, one-class, one-method document whose class a case is keyed to, the result holds that case with PASSED when the status is "PASS" and FAILED otherwise, together with that note. |
| HandlerProperties.ExampleUnmatched | src/main/java/hudson/plugins/testlink/parser/TestNGXmlHandler.java:148 | A document whose class no case is keyed to leaves the result null and the report unchanged. |

## Left out

- SAX parsing itself is not modelled: the `DefaultHandler` callbacks, the `uri` and `localName` parameters, `Attributes` and `SAXException`. A document is a sequence of open and close events with attribute maps, and element names are compared as qualified names.
- `Serializable`, the `tempTestMethod` field (it is only written, never read), logging, and persisting the results into TestLink are not modelled.
- The TestLink API classes are reduced to the fields the handler reads or writes. A `TestResult` keeps a copy of the matched case, not a reference to it. `TestNGHandler.EndElement` replaces the result with a copy of the case on every status write, and `HandlerProperties.StepPreserves` shows the copy then equals a case of the report. Together they make the aliasing in the Java handler unobservable.
- The commented-out removal of the matched case at line 175 is not modelled, because it is dead code.
- Custom field names are never null here. In the Java handler, a null name would throw at line 138.
- The `Integer` failure counter of lines 150-160 is not modelled as a number. It only ever holds 0 or 1, and only its sign is used, which `TestNGHandler.Aggregate` captures.
- Method counts are unbounded: a list longer than `Integer.MAX_VALUE` cannot be represented.
- JavaText.ParseLongLoop: only ASCII digits are accepted, here and in `JavaText.ParseLong`. `Long.parseLong` also accepts other Unicode decimal digits through `Character.digit`.
- JavaText.EqualsIgnoreCase: only ASCII letters are folded. `String.equalsIgnoreCase` also folds non-ASCII letters, which matters only for custom field names and keys outside ASCII.
