/**
 * Result records: what `new Assert()` pushes onto `results`, how `succeed`,
 * `fail` and the closure returned by an assertion change a record, and
 * the counting done by `o.report`.
 */
module Results {
  import opened Common
  import Definition

  /** The `error`/`testError` field of a record. */
  datatype ErrorRef =
    | NoError                    // `null`
    | Declared(id: Definition.ErrId)  // a task's definition-site error
    | UserError(message: string) // an Error object thrown or passed by user code
    | FreshError                 // `ensureStackTrace(new Error)` created by `fail`

  function DeclaredRef(err: Option<Definition.ErrId>): ErrorRef {
    if err.Some? then Declared(err.value) else NoError
  }

  /** `{pass, context, message, error, testError}`; a `message` of `None` is `undefined`. */
  datatype Record = Record(pass: Option<bool>, context: string, message: Option<string>,
                           error: ErrorRef, testError: ErrorRef)

  const IncompleteMessage: string := "Incomplete assertion in the test definition starting at..."

  /** A value thrown or passed to `done`: an Error object, or any other value as `String(err)`. */
  datatype Thrown = ErrorObject(message: string) | OtherValue(text: string)

  /**
   * `new Assert(value).result`: a record that has not passed or failed yet,
   * tagged with the breadcrumbs and the current test's definition error.
   */
  function NewRecord(subjects: seq<string>, testError: Option<Definition.ErrId>): (r: Record)
    ensures r.pass.None? && r.message == Some(IncompleteMessage)
    ensures r.context == Join(subjects, " > ")
    ensures r.error == r.testError == DeclaredRef(testError)
  {
    Record(None, Join(subjects, " > "), Some(IncompleteMessage), DeclaredRef(testError), DeclaredRef(testError))
  }

  /** `succeed(result, message)` */
  function SucceedRecord(r: Record, message: Option<string>): (r': Record)
    ensures r'.pass == Some(true) && r'.message == message
    ensures r'.context == r.context && r'.error == r.error && r'.testError == r.testError
  {
    r.(pass := Some(true), message := message)
  }

  /** `fail(result, message, error)`: an absent error is replaced by a fresh one. */
  function FailRecord(r: Record, message: string, error: Option<ErrorRef>): (r': Record)
    ensures r'.pass == Some(false) && r'.message == Some(message)
    ensures r'.error == if error.Some? then error.value else FreshError
    ensures r'.context == r.context && r'.testError == r.testError
  {
    r.(pass := Some(false), message := Some(message), error := if error.Some? then error.value else FreshError)
  }

  /** What an assertion's comparison did: returned a message, or threw. */
  datatype Verdict = Returned(message: string) | Threw(thrown: Thrown)

  /** The body of the function `createAssertion(f)` returns, given what `f` did. */
  function Assertion(r: Record, v: Verdict): (r': Record)
    ensures r'.pass == Some(v.Returned?)
    ensures v.Returned? ==> r'.message == Some(v.message) && r'.error == r.error
    ensures v.Threw? && v.thrown.ErrorObject? ==>
      r'.message == Some(v.thrown.message) && r'.error == UserError(v.thrown.message)
    ensures v.Threw? && v.thrown.OtherValue? ==> r'.message == Some(v.thrown.text) && r'.error == FreshError
    ensures r'.context == r.context && r'.testError == r.testError
  {
    match v
    case Returned(m) => SucceedRecord(r, Some(m))
    case Threw(ErrorObject(m)) => FailRecord(r, m, Some(UserError(m)))
    case Threw(OtherValue(t)) => FailRecord(r, t, None)
  }

  /** JavaScript's `String(x)` of a message that may be `undefined`. */
  function Text(m: Option<string>): string {
    if m.Some? then m.value else "undefined"
  }

  /**
   * The closure an assertion returns, called with a user message: the
   * message is put in front only when the record did not pass.
   */
  function Annotate(r: Record, message: string): (r': Record)
    ensures r.pass != Some(true) ==> r'.message == Some(message + "\n\n" + Text(r.message))
    ensures r.pass == Some(true) ==> r' == r
    ensures r'.pass == r.pass && r'.context == r.context && r'.error == r.error && r'.testError == r.testError
  {
    if r.pass != Some(true) then r.(message := Some(message + "\n\n" + Text(r.message))) else r
  }

  /** The number of records whose `pass` is falsy. */
  function FailureCount(rs: seq<Record>): (n: nat)
    ensures n <= |rs|
  {
    if rs == [] then 0 else (if rs[0].pass != Some(true) then 1 else 0) + FailureCount(rs[1..])
  }

  lemma {:induction false} FailureCountAppend(a: seq<Record>, b: seq<Record>)
    ensures FailureCount(a + b) == FailureCount(a) + FailureCount(b)
  {
    if a != [] {
      assert (a + b)[0] == a[0];
      assert (a + b)[1..] == a[1..] + b;
      FailureCountAppend(a[1..], b);
    } else {
      assert a + b == b;
    }
  }

  /** No failures means every record passed, and every failure is a record that did not pass. */
  lemma {:induction false} FailureCountZero(rs: seq<Record>)
    ensures FailureCount(rs) == 0 <==> forall i :: 0 <= i < |rs| ==> rs[i].pass == Some(true)
    ensures FailureCount(rs) == |rs| <==> forall i :: 0 <= i < |rs| ==> rs[i].pass != Some(true)
  {
    if rs != [] {
      FailureCountZero(rs[1..]);
      assert forall i :: 1 <= i < |rs| ==> rs[i] == rs[1..][i - 1];
    }
  }

  /** The summary line of `o.report`, without colours and running time. */
  function Summary(failures: nat, total: nat): string {
    var pl := if total == 1 then "" else "s";
    if failures == 0 then
      (if pl != "" then "All " else "The ") + NatToString(total) + " assertion" + pl + " passed"
    else
      NatToString(failures) + " out of " + NatToString(total) + " assertion" + pl + " failed"
  }

  /**
   * What `o.report` does: return the failure count, throw an unresolved
   * record's `testError`, or, when that record has none, fail with a
   * `TypeError` on setting `stack` of `null`.
   */
  datatype Report =
    | Reported(failures: nat, summary: string)
    | Unresolved(index: nat, thrown: ErrorRef, message: string)
    | NullTestError(index: nat)

  /** Position of the first record whose `pass` is `null`, or `|rs|` when every record is resolved. */
  function FirstUnresolved(rs: seq<Record>): (i: nat)
    ensures i <= |rs|
    ensures i < |rs| ==> rs[i].pass.None?
    ensures forall j :: 0 <= j < i ==> rs[j].pass.Some?
  {
    if rs == [] then 0 else if rs[0].pass.None? then 0 else 1 + FirstUnresolved(rs[1..])
  }

  /**
   * `o.report(results)`: for the first record whose `pass` is `null`, its
   * `testError` is thrown carrying the record's message (a `TypeError` when
   * it is `null`); otherwise the result is the number of records that did
   * not pass.
   */
  method ReportResults(results: seq<Record>) returns (r: Report)
    ensures !r.Reported? <==> FirstUnresolved(results) < |results|
    ensures r.Unresolved? ==>
      && r.index == FirstUnresolved(results) && r.thrown != NoError
      && r.thrown == results[r.index].testError && r.message == Text(results[r.index].message)
    ensures r.NullTestError? ==> r.index == FirstUnresolved(results) && results[r.index].testError == NoError
    ensures r.Reported? ==>
      && r.failures == FailureCount(results)
      && r.summary == Summary(FailureCount(results), |results|)
  {
    var errCount := 0;
    var i := 0;
    while i < |results|
      invariant 0 <= i <= |results|
      invariant forall j :: 0 <= j < i ==> results[j].pass.Some?
      invariant errCount == FailureCount(results[..i])
    {
      var rec := results[i];
      if rec.pass.None? {
        if rec.testError == NoError {
          return NullTestError(i);
        }
        return Unresolved(i, rec.testError, Text(rec.message));
      }
      assert results[..i + 1] == results[..i] + [rec];
      FailureCountAppend(results[..i], [rec]);
      if rec.pass != Some(true) {
        errCount := errCount + 1;
      }
      i := i + 1;
    }
    assert results[..i] == results;
    r := Reported(errCount, Summary(errCount, |results|));
  }
}
