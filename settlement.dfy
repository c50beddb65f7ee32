/**
 * The closure state of one call of `next()` in `series`: the guard that
 * lets `done` settle a task once, the timer, the delay that `setDelay`
 * validates, and the comparison `current === cursor`, which lets only the
 * settlement of the task the cursor last moved past call `next()` again.
 *
 * Timers are not modelled as time: starting one, and its expiry, are
 * calls made by the environment.
 */
module Settlement {
  import opened Common
  import opened Results
  import Definition
  import Values
  import Plan

  /** `String(delay)` */
  function DelayText(d: Plan.Delay): string {
    match d
    case Ms(n) => IntToString(n)
    case Forever => "Infinity"
  }

  function TimeoutMessage(d: Plan.Delay): (m: string)
    ensures StartsWith(m, "async test timed out after ")
  {
    "async test timed out after " + DelayText(d) + "ms"
  }

  /** The error `done` throws when it is called a second time; `arg` is its name in the test's source. */
  function DoneTwiceMessage(arg: string): string {
    "'" + arg + "()' should only be called once."
  }

  const DelayTypeMessage: string := "timeout() and o.timeout() expect a number as argument."

  /** `noTimeoutRightNow`, which `o.timeout` calls outside the synchronous part of `next()`. */
  const NotSynchronousMessage: string := "o.timeout must be called snchronously from within a test definition or a hook."

  /**
   * The records `finalizeAsync(err)` pushes: for no error, a success when the
   * task has a definition-site error (a user task) and nothing otherwise; for
   * an error, always a failure, carrying the Error object when there is one.
   */
  function FinalRecords(base: Record, hasErr: bool, err: Option<Thrown>): (rs: seq<Record>)
    ensures |rs| == if err.None? && !hasErr then 0 else 1
    ensures err.None? && hasErr ==> rs == [SucceedRecord(base, None)]
    ensures err.Some? ==> |rs| == 1 && rs[0].pass == Some(false) && rs[0].context == base.context
    ensures err.Some? && err.value.ErrorObject? ==>
      rs[0].message == Some(err.value.message) && rs[0].error == UserError(err.value.message)
    ensures err.Some? && err.value.OtherValue? ==> rs[0].message == Some(err.value.text) && rs[0].error == FreshError
    ensures forall i :: 0 <= i < |rs| ==> rs[i].context == base.context && rs[i].testError == base.testError
  {
    match err
    case None => if hasErr then [SucceedRecord(base, None)] else []
    case Some(ErrorObject(m)) => [FailRecord(base, m, Some(UserError(m)))]
    case Some(OtherValue(t)) => [FailRecord(base, t, None)]
  }

  /** The `timeout` variable: `0` before any timer, a handle, or `undefined` once fired or cleared. */
  datatype Timer = Idle | Pending | Cleared

  class Step {
    /** Set by the first call of `done`. */
    var isDone: bool
    var timer: Timer
    var delay: Plan.Delay
    /** Whether `globalTimeout` is this step's `setDelay` (the synchronous part of `next()`). */
    var synchronous: bool
    /**
     * The series' cursor as this step sees it: `current` until the step's
     * own `next()` moves it one further. Later tasks move the real cursor on,
     * but the only comparison the step makes, `current === cursor`, fails
     * all the same.
     */
    var cursor: nat
    /** The breadcrumb stack, which holds the hook's crumb while a hook runs. */
    var subjects: seq<string>
    /** The records this step pushed onto `results`. */
    var records: seq<Record>
    /** How many times this step called `next()`. */
    var nexts: nat

    /** `current`: the cursor just after it moved past this task. */
    const current: nat
    /** `tasks.length` */
    const length: nat
    /** `task.err != null`: the task is a user function, not an internal one. */
    const hasErr: bool
    const isHook: bool
    /** The name `done` has in the test's source, for the error message. */
    const arg: string
    /**
     * What `new Assert()` builds from `subjects` and `currentTestError` while
     * they are still this task's, that is until this step first calls `next()`.
     */
    const base: Record

    /**
     * The cursor has moved past this task at most once more since the task
     * began, and only through this step's own first call of `next()`:
     * every later settlement finds `current !== cursor` and stops.
     */
    ghost predicate Valid()
      reads this
    {
      && 1 <= current <= length
      && cursor == (if nexts > 0 && current < length then current + 1 else current)
      && (current < length ==> nexts <= 1)
    }

    /**
     * The record a settlement of this task starts from: `base` until the
     * step has called `next()`, and afterwards `now`, the record `new
     * Assert()` builds from whatever `subjects` and `currentTestError` hold
     * at that moment (those of a later task, or of the code after the series).
     */
    function From(now: Record): Record
      reads this
    {
      if nexts == 0 then base else now
    }

    /**
     * The prologue of `next()` for the task at position `current - 1`, whose
     * definition-site error is `err`: the cursor has moved past it,
     * `currentTestError` is `err`, `setDelay` is installed, and a hook has
     * pushed its crumb.
     */
    constructor (current: nat, length: nat, err: Option<Definition.ErrId>, crumb: Option<string>, arg: string,
                 delay: Plan.Delay, subjects: seq<string>)
      requires 1 <= current <= length
      ensures Valid()
      ensures this.current == current && this.length == length && this.hasErr == err.Some?
      ensures this.isHook == crumb.Some? && this.arg == arg
      ensures !isDone && timer == Idle && this.delay == delay && synchronous
      ensures cursor == current && records == [] && nexts == 0
      ensures this.subjects == if crumb.Some? then subjects + [crumb.value] else subjects
      ensures base == NewRecord(this.subjects, err)
    {
      this.current := current;
      this.length := length;
      this.hasErr := err.Some?;
      this.isHook := crumb.Some?;
      this.arg := arg;
      this.delay := delay;
      this.subjects := if crumb.Some? then subjects + [crumb.value] else subjects;
      this.base := NewRecord(if crumb.Some? then subjects + [crumb.value] else subjects, err);
      isDone := false;
      timer := Idle;
      synchronous := true;
      cursor := current;
      records := [];
      nexts := 0;
    }

    /**
     * `next()` as seen from this step: it moves the cursor unless the series
     * is over. When it starts another task, that task's `next()` ends by
     * switching `o.timeout` off before control comes back here.
     */
    method Next()
      requires Valid() && cursor == current && (current < length ==> nexts == 0)
      modifies this
      ensures Valid()
      ensures nexts == old(nexts) + 1
      ensures cursor == if current < length then current + 1 else current
      ensures synchronous == if current < length then false else old(synchronous)
      ensures isDone == old(isDone) && timer == old(timer) && delay == old(delay)
      ensures subjects == old(subjects) && records == old(records)
    {
      nexts := nexts + 1;
      if cursor < length {
        cursor := cursor + 1;
        synchronous := false;
      }
    }

    /**
     * `finalizeAsync(err)`: push the settlement's record, clear the timer,
     * and only if the cursor has not moved since this task began, pop the
     * hook's crumb and call `next()`.
     */
    method FinalizeAsync(err: Option<Thrown>, now: Record)
      requires Valid()
      modifies this
      ensures Valid()
      ensures records == old(records) + FinalRecords(old(From(now)), hasErr, err)
      ensures timer == Cleared
      ensures old(cursor) == current ==> nexts == old(nexts) + 1
      ensures old(cursor) != current ==> nexts == old(nexts) && cursor == old(cursor)
      ensures subjects == if old(cursor) == current && isHook then Drop(old(subjects)) else old(subjects)
      ensures synchronous == if old(cursor) == current && current < length then false else old(synchronous)
      ensures isDone == old(isDone) && delay == old(delay)
    {
      records := records + FinalRecords(From(now), hasErr, err);
      timer := Cleared;
      if current == cursor {
        if isHook {
          subjects := Drop(subjects);
        }
        Next();
      }
    }

    /** `done(err)`: settles the task the first time, and throws on any later call. */
    method Done(err: Option<Thrown>, now: Record) returns (r: Outcome<string>)
      requires Valid()
      modifies this
      ensures Valid()
      ensures isDone
      ensures old(isDone) ==> r == Fail(DoneTwiceMessage(arg))
      ensures old(isDone) ==> records == old(records) && nexts == old(nexts) && cursor == old(cursor)
                              && subjects == old(subjects) && timer == old(timer)
                              && delay == old(delay) && synchronous == old(synchronous)
      ensures !old(isDone) ==> r == Pass && records == old(records) + FinalRecords(old(From(now)), hasErr, err)
      ensures !old(isDone) ==> timer == Cleared && delay == old(delay)
      ensures !old(isDone) ==> nexts == old(nexts) + (if old(cursor) == current then 1 else 0)
      ensures !old(isDone) && old(cursor) != current ==> cursor == old(cursor)
      ensures !old(isDone) ==> subjects == if old(cursor) == current && isHook then Drop(old(subjects)) else old(subjects)
      ensures !old(isDone) ==>
        synchronous == if old(cursor) == current && current < length then false else old(synchronous)
    {
      if isDone {
        return Fail(DoneTwiceMessage(arg));
      }
      isDone := true;
      FinalizeAsync(err, now);
      r := Pass;
    }

    /**
     * The timer's callback: `timeout` becomes `undefined` and the task fails
     * with a message naming the delay in force when the timer fires. It does
     * not set `isDone`, so a later `done()` still settles the task again.
     */
    method TimerFires(now: Record)
      requires Valid() && timer == Pending
      modifies this
      ensures Valid()
      ensures records == old(records) + [FailRecord(old(From(now)), TimeoutMessage(delay), None)]
      ensures isDone == old(isDone) && timer == Cleared && delay == old(delay)
      ensures nexts == old(nexts) + (if old(cursor) == current then 1 else 0)
      ensures old(cursor) != current ==> cursor == old(cursor)
      ensures subjects == if old(cursor) == current && isHook then Drop(old(subjects)) else old(subjects)
      ensures synchronous == if old(cursor) == current && current < length then false else old(synchronous)
    {
      timer := Cleared;
      FinalizeAsync(Some(OtherValue(TimeoutMessage(delay))), now);
    }

    /** `startTimer()` */
    method StartTimer()
      requires Valid()
      modifies this
      ensures Valid()
      ensures timer == Pending
      ensures isDone == old(isDone) && records == old(records) && nexts == old(nexts) && cursor == old(cursor)
      ensures subjects == old(subjects) && delay == old(delay) && synchronous == old(synchronous)
    {
      timer := Pending;
    }

    /** `setDelay(t)`, the test's own `timeout` argument: any time, for a number only. */
    method SetDelay(t: Values.Value) returns (r: Outcome<string>)
      requires Valid()
      modifies this
      ensures Valid()
      ensures r == if t.Num? then Pass else Fail(DelayTypeMessage)
      ensures delay == if t.Num? then Plan.Ms(t.n) else old(delay)
      ensures isDone == old(isDone) && timer == old(timer) && records == old(records) && nexts == old(nexts)
      ensures cursor == old(cursor) && subjects == old(subjects) && synchronous == old(synchronous)
    {
      if !t.Num? {
        return Fail(DelayTypeMessage);
      }
      delay := Plan.Ms(t.n);
      r := Pass;
    }

    /** `o.timeout(t)`, which reaches `setDelay` only during the synchronous part of `next()`. */
    method GlobalTimeout(t: Values.Value) returns (r: Outcome<string>)
      requires Valid()
      modifies this
      ensures Valid()
      ensures r == if !old(synchronous) then Fail(NotSynchronousMessage)
                   else if t.Num? then Pass else Fail(DelayTypeMessage)
      ensures delay == if old(synchronous) && t.Num? then Plan.Ms(t.n) else old(delay)
      ensures isDone == old(isDone) && timer == old(timer) && records == old(records) && nexts == old(nexts)
      ensures cursor == old(cursor) && subjects == old(subjects) && synchronous == old(synchronous)
    {
      if !synchronous {
        return Fail(NotSynchronousMessage);
      }
      r := SetDelay(t);
    }

    /**
     * The end of `next()` for a body that takes `done`: the timer starts only
     * if `done` was not called synchronously, and `o.timeout` is switched off.
     */
    method AfterCallback()
      requires Valid()
      modifies this
      ensures Valid()
      ensures timer == if old(timer) == Idle then Pending else old(timer)
      ensures !synchronous
      ensures isDone == old(isDone) && records == old(records) && nexts == old(nexts) && cursor == old(cursor)
      ensures subjects == old(subjects) && delay == old(delay)
    {
      if timer == Idle {
        StartTimer();
      }
      synchronous := false;
    }

    /**
     * A body without `done` that returned a promise: the timer starts, the
     * promise's settlement is left to `Done`, and `o.timeout` is switched off.
     */
    method ReturnedPromise()
      requires Valid()
      modifies this
      ensures Valid()
      ensures timer == Pending && !synchronous
      ensures isDone == old(isDone) && records == old(records) && nexts == old(nexts) && cursor == old(cursor)
      ensures subjects == old(subjects) && delay == old(delay)
    {
      StartTimer();
      synchronous := false;
    }

    /**
     * A body without `done` that returned something other than a promise: no
     * record is pushed, the hook's crumb is popped and `next()` runs, without
     * consulting `isDone` or the cursor.
     */
    method ReturnedSynchronously()
      requires Valid() && cursor == current && nexts == 0
      modifies this
      ensures Valid()
      ensures records == old(records) && nexts == 1
      ensures cursor == if current < length then current + 1 else current
      ensures subjects == if isHook then Drop(old(subjects)) else old(subjects)
      ensures !synchronous
      ensures isDone == old(isDone) && timer == old(timer) && delay == old(delay)
    {
      if isHook {
        subjects := Drop(subjects);
      }
      Next();
      synchronous := false;
    }

    /**
     * A synchronous throw from the body: a user task settles with the thrown
     * value (without setting `isDone`) and `o.timeout` is switched off, while
     * an internal task's error is thrown on and nothing changes. `None` is a
     * thrown `null` or `undefined`, which `finalizeAsync` takes for no error.
     */
    method Threw(e: Option<Thrown>, now: Record) returns (r: Outcome<Option<Thrown>>)
      requires Valid()
      modifies this
      ensures Valid()
      ensures r == if hasErr then Pass else Fail(e)
      ensures hasErr ==> records == old(records) + FinalRecords(old(From(now)), hasErr, e)
      ensures hasErr ==> timer == Cleared && !synchronous && delay == old(delay)
      ensures hasErr ==> nexts == old(nexts) + (if old(cursor) == current then 1 else 0)
      ensures hasErr && old(cursor) != current ==> cursor == old(cursor)
      ensures hasErr ==> subjects == if old(cursor) == current && isHook then Drop(old(subjects)) else old(subjects)
      ensures !hasErr ==> records == old(records) && nexts == old(nexts) && cursor == old(cursor)
                          && timer == old(timer) && subjects == old(subjects)
                          && delay == old(delay) && synchronous == old(synchronous)
      ensures isDone == old(isDone)
    {
      if !hasErr {
        return Fail(e);
      }
      FinalizeAsync(e, now);
      synchronous := false;
      r := Pass;
    }
  }

  /** `subjects.pop()`, which leaves an empty stack as it is. */
  function Drop(subjects: seq<string>): (r: seq<string>)
    ensures |subjects| > 0 ==> r + [subjects[|subjects| - 1]] == subjects
    ensures |subjects| == 0 ==> r == []
  {
    if |subjects| > 0 then subjects[..|subjects| - 1] else subjects
  }

  /**
   * A test that takes `done`, exceeds its delay and then calls `done()`
   * anyway: the timer's failure and then a success are both recorded, while
   * the series moves on only once. The failure is built from the test's own
   * breadcrumbs and error; the late success from `late`, the record that
   * `new Assert()` makes from whatever globals the series has moved on to.
   */
  method LateDoneAfterTimeout(err: Definition.ErrId, late: Record) returns (records: seq<Record>, nexts: nat)
    ensures records == [FailRecord(NewRecord([], Some(err)), TimeoutMessage(Plan.Ms(200)), None), SucceedRecord(late, None)]
    ensures nexts == 1
  {
    var step := new Step(1, 3, Some(err), None, "done", Plan.Ms(200), []);
    step.AfterCallback();
    step.TimerFires(late);
    var r := step.Done(None, late);
    records, nexts := step.records, step.nexts;
  }

  /**
   * Calling `done()` twice after the body has returned: the second call
   * throws to its caller and records nothing.
   */
  method DoneTwice(err: Definition.ErrId, now: Record) returns (first: Outcome<string>, second: Outcome<string>, records: seq<Record>)
    ensures first == Pass && second == Fail(DoneTwiceMessage("done"))
    ensures records == [SucceedRecord(NewRecord([], Some(err)), None)]
  {
    var step := new Step(1, 3, Some(err), None, "done", Plan.Ms(200), []);
    step.AfterCallback();
    first := step.Done(None, now);
    second := step.Done(None, now);
    records := step.records;
  }

  /**
   * Calling `done()` twice inside the body: the first call settles the test
   * and runs the next task, the second throws, and the body's `catch`
   * settles the task a second time with that error, recorded from the
   * globals of the task that is current by then.
   */
  method DoneTwiceInBody(err: Definition.ErrId, now: Record) returns (records: seq<Record>, nexts: nat)
    ensures records == [SucceedRecord(NewRecord([], Some(err)), None),
                        FailRecord(now, DoneTwiceMessage("done"), Some(UserError(DoneTwiceMessage("done"))))]
    ensures nexts == 1
  {
    var step := new Step(1, 3, Some(err), None, "done", Plan.Ms(200), []);
    var _ := step.Done(None, now);
    var second := step.Done(None, now);
    var _ := step.Threw(Some(ErrorObject(DoneTwiceMessage("done"))), now);
    step.AfterCallback();
    records, nexts := step.records, step.nexts;
  }

  /** A test whose body throws `null` or `undefined` is recorded as a success. */
  method ThrowNull(err: Definition.ErrId) returns (records: seq<Record>)
    ensures records == [SucceedRecord(NewRecord([], Some(err)), None)]
  {
    var step := new Step(1, 3, Some(err), None, "done", Plan.Ms(200), []);
    var _ := step.Threw(None, NewRecord([], None));
    records := step.records;
  }

  /** Once a body has returned a promise, `o.timeout` throws instead of changing the delay. */
  method TimeoutAfterPromise(t: int) returns (r: Outcome<string>, delay: Plan.Delay)
    ensures r == Fail(NotSynchronousMessage) && delay == Plan.Ms(200)
  {
    var step := new Step(1, 3, Some(0), None, "done", Plan.Ms(200), []);
    step.ReturnedPromise();
    r := step.GlobalTimeout(Values.Num(t));
    delay := step.delay;
  }

  /** A `done()` made inside the body runs the next task, after which `o.timeout` throws. */
  method TimeoutAfterSynchronousDone(t: int) returns (r: Outcome<string>)
    ensures r == Fail(NotSynchronousMessage)
  {
    var step := new Step(1, 3, Some(0), None, "done", Plan.Ms(200), []);
    var _ := step.Done(None, NewRecord([], None));
    r := step.GlobalTimeout(Values.Num(t));
  }
}
