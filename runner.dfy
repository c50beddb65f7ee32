/**
 * The test runner of `o.run`: `runSpec`, `series` and `next` as an
 * imperative machine over the breadcrumb stack `subjects`, the list of
 * results, and the sequence of executed tasks. What each user function
 * does when it runs is an input (`behave`): the assertions it makes and
 * how it settles. Every task settles before the next one starts.
 */
module Runner {
  import opened Common
  import opened Definition
  import opened Plan
  import opened Results
  import opened Settlement
  import Values

  /** One assertion made by a body: left unfinished, or checked and maybe annotated. */
  datatype Check = Incomplete | Checked(verdict: Verdict, note: Option<string>)

  /**
   * How a body settles: a plain synchronous return, which records nothing;
   * `done()` or a fulfilled promise; `done(err)`, a synchronous throw or a
   * rejected promise; or its timer. A `null` or `undefined` error, thrown or
   * given, counts as no error in `finalizeAsync` and is `Resolved` here.
   */
  datatype Settle = Returned | Resolved | Rejected(reason: Thrown) | TimedOut

  /** What a user function does when it runs; `delay` is a value given to `o.timeout`. */
  datatype Behaviour = Behaviour(checks: seq<Check>, delay: Option<int>, settle: Settle)

  /** The record one assertion leaves: untouched while incomplete, else passed or failed and maybe annotated. */
  function CheckRecord(base: Record, c: Check): (r: Record)
    ensures r.context == base.context && r.testError == base.testError
    ensures c.Incomplete? ==> r == base
    ensures c.Checked? ==> r.pass == Some(c.verdict.Returned?)
  {
    match c
    case Incomplete => base
    case Checked(v, note) =>
      var r := Assertion(base, v);
      if note.Some? then Annotate(r, note.value) else r
  }

  /** The records a user task's settlement pushes through `finalizeAsync`, if any. */
  function SettleRecords(base: Record, b: Behaviour, d: Delay): (rs: seq<Record>)
    ensures |rs| == if b.settle.Returned? then 0 else 1
    ensures b.settle.Resolved? ==> rs == [SucceedRecord(base, None)]
    ensures b.settle.Rejected? || b.settle.TimedOut? ==> rs[0].pass == Some(false)
    ensures forall i :: 0 <= i < |rs| ==> rs[i].context == base.context && rs[i].testError == base.testError
  {
    var delay := if b.delay.Some? then Ms(b.delay.value) else d;
    match b.settle
    case Returned => []
    case Resolved => FinalRecords(base, true, None)
    case Rejected(e) => FinalRecords(base, true, Some(e))
    case TimedOut => FinalRecords(base, true, Some(OtherValue(TimeoutMessage(delay))))
  }

  /**
   * The records one run of a user task adds: its assertions, then the one
   * its settlement pushes, except after a plain return.
   */
  function TaskRecords(e: Event, b: Behaviour): (rs: seq<Record>)
    ensures |rs| == |b.checks| + (if b.settle.Returned? then 0 else 1)
    ensures forall i :: 0 <= i < |b.checks| ==> rs[i] == CheckRecord(NewRecord(e.context, e.task.err), b.checks[i])
    ensures rs[|b.checks|..] == SettleRecords(NewRecord(e.context, e.task.err), b, e.delay)
    ensures forall i :: 0 <= i < |rs| ==>
      rs[i].context == Join(e.context, " > ") && rs[i].testError == DeclaredRef(e.task.err)
  {
    var base := NewRecord(e.context, e.task.err);
    var cs, ss := CheckRecords(base, b.checks), SettleRecords(base, b, e.delay);
    assert (cs + ss)[|b.checks|..] == ss;
    cs + ss
  }

  /** The records of a body's assertions, one per assertion, in order. */
  function CheckRecords(base: Record, cs: seq<Check>): (rs: seq<Record>)
    ensures |rs| == |cs|
    ensures forall i :: 0 <= i < |cs| ==> rs[i] == CheckRecord(base, cs[i])
  {
    if cs == [] then [] else [CheckRecord(base, cs[0])] + CheckRecords(base, cs[1..])
  }

  /** Internal tasks have no definition-site error and record nothing. */
  function EventRecords(e: Event, behave: FnId -> Behaviour): seq<Record> {
    if IsUserTask(e.task) then TaskRecords(e, behave(e.task.body.fn)) else []
  }

  function RecordsOf(es: seq<Event>, behave: FnId -> Behaviour): seq<Record> {
    if es == [] then [] else EventRecords(es[0], behave) + RecordsOf(es[1..], behave)
  }

  lemma {:induction false} RecordsOfAppend(a: seq<Event>, b: seq<Event>, behave: FnId -> Behaviour)
    ensures RecordsOf(a + b, behave) == RecordsOf(a, behave) + RecordsOf(b, behave)
  {
    if a == [] {
      assert a + b == b;
    } else {
      assert (a + b)[0] == a[0];
      assert (a + b)[1..] == a[1..] + b;
      RecordsOfAppend(a[1..], b, behave);
    }
  }

  lemma PlainTraceSnoc(tasks: seq<Task>, i: nat, subjects: seq<string>, delay: int)
    requires i < |tasks|
    ensures PlainTrace(tasks[..i + 1], subjects, delay) ==
            PlainTrace(tasks[..i], subjects, delay) + [Event(tasks[i], TaskContext(tasks[i], subjects), Ms(delay))]
  {
    var a, b := PlainTrace(tasks[..i + 1], subjects, delay), PlainTrace(tasks[..i], subjects, delay);
    assert forall j :: 0 <= j < i ==> a[j] == b[j];
  }

  lemma RecordsOfSnoc(done: seq<Event>, e: Event, behave: FnId -> Behaviour)
    ensures RecordsOf(done + [e], behave) == RecordsOf(done, behave) + EventRecords(e, behave)
  {
    RecordsOfAppend(done, [e], behave);
    assert RecordsOf([e], behave) == EventRecords(e, behave) + RecordsOf([], behave);
  }

  lemma SeriesTraceSnoc(s: Spec, tasks: seq<Task>, i: nat, beforeEach: seq<Task>,
                        afterEach: seq<Task>, subjects: seq<string>, delay: int, only: seq<FnId>)
    requires i < |tasks|
    ensures SeriesTrace(s, tasks[..i + 1], beforeEach, afterEach, subjects, delay, only) ==
            SeriesTrace(s, tasks[..i], beforeEach, afterEach, subjects, delay, only) +
            TaskTrace(s, tasks[i], beforeEach, afterEach, subjects, delay, only)
  {
    assert tasks[..i + 1] == tasks[..i] + [tasks[i]];
    SeriesTraceAppend(s, tasks[..i], [tasks[i]], beforeEach, afterEach, subjects, delay, only);
    assert [tasks[i]][1..] == [];
  }

  /** Appending one step's events (and its records) to what a loop has done so far. */
  lemma Extend(trace0: seq<Event>, trace1: seq<Event>, trace2: seq<Event>,
               results0: seq<Record>, results1: seq<Record>, results2: seq<Record>,
               done: seq<Event>, step: seq<Event>, behave: FnId -> Behaviour)
    requires trace1 == trace0 + done && trace2 == trace1 + step
    requires results1 == results0 + RecordsOf(done, behave) && results2 == results1 + RecordsOf(step, behave)
    ensures trace2 == trace0 + (done + step)
    ensures results2 == results0 + RecordsOf(done + step, behave)
  {
    RecordsOfAppend(done, step, behave);
    Concat(trace0, trace1, trace2, done, step);
    Concat(results0, results1, results2, RecordsOf(done, behave), RecordsOf(step, behave));
  }

  lemma ExtendOne(trace0: seq<Event>, trace1: seq<Event>, trace2: seq<Event>,
                  results0: seq<Record>, results1: seq<Record>, results2: seq<Record>,
                  done: seq<Event>, e: Event, behave: FnId -> Behaviour)
    requires trace1 == trace0 + done && trace2 == trace1 + [e]
    requires results1 == results0 + RecordsOf(done, behave) && results2 == results1 + EventRecords(e, behave)
    ensures trace2 == trace0 + (done + [e])
    ensures results2 == results0 + RecordsOf(done + [e], behave)
  {
    assert RecordsOf([e], behave) == EventRecords(e, behave) + RecordsOf([], behave);
    Extend(trace0, trace1, trace2, results0, results1, results2, done, [e], behave);
  }

  /** A child wrapper's own event, which records nothing, followed by the child's events. */
  lemma Prepend(trace0: seq<Event>, trace1: seq<Event>, trace2: seq<Event>,
                results0: seq<Record>, results2: seq<Record>,
                head: Event, inner: seq<Event>, behave: FnId -> Behaviour)
    requires !IsUserTask(head.task)
    requires trace1 == trace0 + [head] && trace2 == trace1 + inner
    requires results2 == results0 + RecordsOf(inner, behave)
    ensures trace2 == trace0 + ([head] + inner)
    ensures results2 == results0 + RecordsOf([head] + inner, behave)
  {
    Silent(head, behave);
    assert results0 == results0 + RecordsOf([head], behave);
    Extend(trace0, trace1, trace2, results0, results0, results2, [head], inner, behave);
  }

  lemma Silent(e: Event, behave: FnId -> Behaviour)
    requires !IsUserTask(e.task)
    ensures RecordsOf([e], behave) == []
  {
    assert RecordsOf([e], behave) == EventRecords(e, behave) + RecordsOf([], behave);
  }

  lemma Concat<T>(x0: seq<T>, x1: seq<T>, x2: seq<T>, a: seq<T>, b: seq<T>)
    requires x1 == x0 + a && x2 == x1 + b
    ensures x2 == x0 + (a + b)
  {
  }

  /** The breadcrumb stack after task `t` has settled. */
  function SubjectsAfter(t: Task, subjects: seq<string>): seq<string> {
    if t.body.PopSubjects? then Drop(subjects) else subjects
  }

  /** A task `series` can run inside spec `s`. */
  predicate TaskFits(s: Spec, t: Task) {
    match t.body
    case ChildWrapper(k) => Has(s, k) && !IsReserved(k)
    case UserFn(_) => true
    case _ => t.hookName.None?
  }

  lemma SpecTasksFit(s: Spec, only: seq<FnId>, finalize: Task)
    requires WellFormed(s) && finalize.hookName.None? && !finalize.body.ChildWrapper? && !finalize.body.UserFn?
    ensures forall i :: 0 <= i < |SpecTasks(s, only, finalize)| ==> TaskFits(s, SpecTasks(s, only, finalize)[i])
    ensures forall i :: 0 <= i < |SpecTasks(s, only, finalize)| - 1 ==> !SpecTasks(s, only, finalize)[i].body.PopSubjects?
  {
    SpecChildren(s, only, finalize);
    HooksUser(s, Before);
    HooksUser(s, After);
    var tasks := SpecTasks(s, only, finalize);
    var b, w, a := Hooks(s, Before), Wrappers(s.entries, only), Hooks(s, After);
    assert tasks == b + w + a + [RestoreTask, finalize];
    forall i | 0 <= i < |tasks| ensures TaskFits(s, tasks[i]) && (i < |tasks| - 1 ==> !tasks[i].body.PopSubjects?) {
      if i < |b| {
        assert tasks[i] == b[i];
      } else if i < |b| + |w| {
        assert tasks[i] == w[i - |b|];
      } else if i < |b| + |w| + |a| {
        assert tasks[i] == a[i - |b| - |w|];
      }
    }
  }

  class Runner {
    var subjects: seq<string>
    var trace: seq<Event>
    var results: seq<Record>
    const only: seq<FnId>
    const behave: FnId -> Behaviour

    constructor (only: seq<FnId>, behave: FnId -> Behaviour)
      ensures this.only == only && this.behave == behave
      ensures subjects == [] && trace == [] && results == []
    {
      this.only := only;
      this.behave := behave;
      subjects := [];
      trace := [];
      results := [];
    }

    /**
     * `o.run()`: `results` starts empty on every run, and the tasks of the
     * whole tree run under the default delay, ending with the finalizer.
     */
    method Run(root: Spec)
      requires WellFormed(root)
      modifies this
      ensures trace == RunTrace(root, old(subjects), only)
      ensures results == RecordsOf(trace, behave)
      ensures subjects == old(subjects)
    {
      results := [];
      trace := [];
      RunSpec(root, [], [], Task(Finalizer, None, None, 1), DefaultDelay);
    }

    /** `runSpec(s, beforeEach, afterEach, finalize, delay)` */
    method RunSpec(s: Spec, beforeEach: seq<Task>, afterEach: seq<Task>, finalize: Task, delay: int)
      requires WellFormed(s) && AllUser(beforeEach) && AllUser(afterEach)
      requires finalize.hookName.None? && (finalize.body.PopSubjects? || finalize.body.Finalizer?)
      modifies this
      decreases s, 2, 0
      ensures trace == old(trace) + SpecTrace(s, beforeEach, afterEach, finalize, old(subjects), delay, only)
      ensures results == old(results) + RecordsOf(SpecTrace(s, beforeEach, afterEach, finalize, old(subjects), delay, only), behave)
      ensures subjects == SubjectsAfter(finalize, old(subjects))
    {
      var tasks := SpecTasks(s, only, finalize);
      SpecTasksFit(s, only, finalize);
      HooksUser(s, BeforeEach);
      HooksUser(s, AfterEach);
      Series(s, tasks, BeforeEachChain(beforeEach, s), AfterEachChain(s, afterEach), SpecDelay(s, delay));
    }

    /** `series(tasks, delay)`: `next` runs `tasks[cursor++]` until the cursor reaches the end. */
    method Series(s: Spec, tasks: seq<Task>, beforeEach: seq<Task>, afterEach: seq<Task>, delay: int)
      requires WellFormed(s) && AllUser(beforeEach) && AllUser(afterEach)
      requires forall i :: 0 <= i < |tasks| ==> TaskFits(s, tasks[i])
      requires forall i :: 0 <= i < |tasks| - 1 ==> !tasks[i].body.PopSubjects?
      modifies this
      decreases s, 1, 0
      ensures trace == old(trace) + SeriesTrace(s, tasks, beforeEach, afterEach, old(subjects), delay, only)
      ensures results == old(results) + RecordsOf(SeriesTrace(s, tasks, beforeEach, afterEach, old(subjects), delay, only), behave)
      ensures subjects == if tasks == [] then old(subjects) else SubjectsAfter(tasks[|tasks| - 1], old(subjects))
    {
      var cursor := 0;
      while cursor < |tasks|
        invariant 0 <= cursor <= |tasks|
        invariant trace == old(trace) + SeriesTrace(s, tasks[..cursor], beforeEach, afterEach, old(subjects), delay, only)
        invariant results == old(results) + RecordsOf(SeriesTrace(s, tasks[..cursor], beforeEach, afterEach, old(subjects), delay, only), behave)
        invariant subjects == if cursor == 0 then old(subjects) else SubjectsAfter(tasks[cursor - 1], old(subjects))
      {
        var task := tasks[cursor];
        ghost var done := SeriesTrace(s, tasks[..cursor], beforeEach, afterEach, old(subjects), delay, only);
        ghost var step := TaskTrace(s, task, beforeEach, afterEach, old(subjects), delay, only);
        ghost var traceBefore, resultsBefore := trace, results;
        RunTask(s, task, beforeEach, afterEach, delay);
        SeriesTraceSnoc(s, tasks, cursor, beforeEach, afterEach, old(subjects), delay, only);
        Extend(old(trace), traceBefore, trace, old(results), resultsBefore, results, done, step, behave);
        cursor := cursor + 1;
      }
      assert tasks[..cursor] == tasks;
    }

    /** `next()` for one task, up to its settlement. */
    method RunTask(s: Spec, t: Task, beforeEach: seq<Task>, afterEach: seq<Task>, delay: int)
      requires WellFormed(s) && AllUser(beforeEach) && AllUser(afterEach) && TaskFits(s, t)
      modifies this
      decreases s, 0, 1
      ensures trace == old(trace) + TaskTrace(s, t, beforeEach, afterEach, old(subjects), delay, only)
      ensures results == old(results) + RecordsOf(TaskTrace(s, t, beforeEach, afterEach, old(subjects), delay, only), behave)
      ensures subjects == SubjectsAfter(t, old(subjects))
    {
      if t.body.ChildWrapper? {
        RunWrapper(s, t, beforeEach, afterEach, delay);
      } else {
        RunPlain(t, delay);
        assert [Event(t, TaskContext(t, old(subjects)), Ms(delay))] ==
               TaskTrace(s, t, beforeEach, afterEach, old(subjects), delay, only);
      }
    }

    /**
     * `next()` for a child wrapper of `o.spec`: it pushes the child's name
     * and runs either the test's chain or the nested spec, either of which
     * pops the name again when it finishes.
     */
    method RunWrapper(s: Spec, t: Task, beforeEach: seq<Task>, afterEach: seq<Task>, delay: int)
      requires WellFormed(s) && AllUser(beforeEach) && AllUser(afterEach)
      requires t.body.ChildWrapper? && TaskFits(s, t)
      modifies this
      decreases s, 0, 0
      ensures trace == old(trace) + TaskTrace(s, t, beforeEach, afterEach, old(subjects), delay, only)
      ensures results == old(results) + RecordsOf(TaskTrace(s, t, beforeEach, afterEach, old(subjects), delay, only), behave)
      ensures subjects == old(subjects)
    {
      var k := t.body.key;
      var head := Event(t, subjects, Forever);
      ghost var trace0, results0 := trace, results;
      trace := trace + [head];
      subjects := subjects + [k];
      var i := Find(s.entries, k);
      assert EntryFits(s.entries[i].0, s.entries[i].1);
      ghost var trace1 := trace;
      ghost var inner: seq<Event> := [];
      match s.entries[i].1 {
        case TaskEntry(test) =>
          inner := PlainTrace(LeafTasks(beforeEach, test, afterEach), old(subjects) + [k], delay);
          RunLeaf(LeafTasks(beforeEach, test, afterEach), delay);
        case SpecEntry(child) =>
          inner := SpecTrace(child, beforeEach, afterEach, PopTask, old(subjects) + [k], delay, only);
          RunSpec(child, beforeEach, afterEach, PopTask, delay);
        case TimeoutEntry(_) =>
          assert false;
      }
      assert Drop(old(subjects) + [k]) == old(subjects);
      assert TaskTrace(s, t, beforeEach, afterEach, old(subjects), delay, only) == [head] + inner;
      Prepend(trace0, trace1, trace, results0, results, head, inner, behave);
    }

    /** `series` over a test's chain `beforeEach ++ [test] ++ afterEach ++ [popSubjects]`. */
    method RunLeaf(tasks: seq<Task>, delay: int)
      requires |tasks| > 0 && tasks[|tasks| - 1] == PopTask
      requires forall i :: 0 <= i < |tasks| - 1 ==> IsUserTask(tasks[i])
      modifies this
      ensures trace == old(trace) + PlainTrace(tasks, old(subjects), delay)
      ensures results == old(results) + RecordsOf(PlainTrace(tasks, old(subjects), delay), behave)
      ensures subjects == Drop(old(subjects))
    {
      var cursor := 0;
      while cursor < |tasks|
        invariant 0 <= cursor <= |tasks|
        invariant trace == old(trace) + PlainTrace(tasks[..cursor], old(subjects), delay)
        invariant results == old(results) + RecordsOf(PlainTrace(tasks[..cursor], old(subjects), delay), behave)
        invariant subjects == if cursor == |tasks| then Drop(old(subjects)) else old(subjects)
      {
        var task := tasks[cursor];
        ghost var done := PlainTrace(tasks[..cursor], old(subjects), delay);
        ghost var e := Event(task, TaskContext(task, old(subjects)), Ms(delay));
        ghost var traceBefore, resultsBefore := trace, results;
        assert cursor < |tasks| - 1 ==> !task.body.PopSubjects?;
        RunPlain(task, delay);
        assert subjects == if cursor + 1 == |tasks| then Drop(old(subjects)) else old(subjects);
        PlainTraceSnoc(tasks, cursor, old(subjects), delay);
        ExtendOne(old(trace), traceBefore, trace, old(results), resultsBefore, results, done, e, behave);
        cursor := cursor + 1;
      }
      assert tasks[..cursor] == tasks;
    }

    /** `next()` for a task that is not a child wrapper: a hook pushes and pops its own crumb. */
    method RunPlain(t: Task, delay: int)
      requires !t.body.ChildWrapper? && (t.hookName.Some? ==> t.body.UserFn?)
      modifies this
      ensures trace == old(trace) + [Event(t, TaskContext(t, old(subjects)), Ms(delay))]
      ensures results == old(results) + EventRecords(Event(t, TaskContext(t, old(subjects)), Ms(delay)), behave)
      ensures subjects == SubjectsAfter(t, old(subjects))
    {
      if t.hookName.Some? {
        subjects := subjects + [HookCrumb(t.hookName.value, t.depth)];
      }
      var e := Event(t, subjects, Ms(delay));
      trace := trace + [e];
      if t.body.UserFn? {
        results := results + TaskRecords(e, behave(t.body.fn));
      } else if t.body.PopSubjects? {
        subjects := Drop(subjects);
      }
      if t.hookName.Some? {
        subjects := subjects[..|subjects| - 1];
      }
    }
  }

  /**
   * The settlement record the runner assigns to a test agrees with what the
   * closure state of its `next()` pushes when the body behaves as `b`: a
   * delay given to `o.timeout` during the body, then a plain return, `done()`,
   * `done(err)` or the timer.
   */
  method StepSettles(subjects: seq<string>, err: ErrId, b: Behaviour, d: Delay) returns (records: seq<Record>)
    ensures records == SettleRecords(NewRecord(subjects, Some(err)), b, d)
  {
    var step := new Step(1, 2, Some(err), None, "done", d, subjects);
    var base := step.base;
    if b.delay.Some? {
      var _ := step.GlobalTimeout(Values.Num(b.delay.value));
    }
    match b.settle {
      case Returned =>
        step.ReturnedSynchronously();
      case Resolved =>
        step.AfterCallback();
        var _ := step.Done(None, base);
      case Rejected(e) =>
        step.AfterCallback();
        var _ := step.Done(Some(e), base);
      case TimedOut =>
        step.AfterCallback();
        step.TimerFires(base);
    }
    records := step.records;
  }
}
