/**
 * The runner's execution plan with timing abstracted away: `runSpec`
 * composes the hook chains and builds one task list per spec, and
 * `series` runs those tasks one after another. Assuming every task
 * settles before the next one starts (which `series` enforces through
 * its cursor), a run is the sequence of events below: which task ran,
 * with which breadcrumb stack (`subjects`), and under which delay.
 */
module Plan {
  import opened Common
  import opened Definition

  /** A task's delay: a number of milliseconds, or `Infinity` for the child wrappers. */
  datatype Delay = Ms(ms: int) | Forever

  /** One executed task, the breadcrumb stack while it ran, and its delay. */
  datatype Event = Event(task: Task, context: seq<string>, delay: Delay)

  /** The default delay of `o.run`. */
  const DefaultDelay: int := 200

  // Internal tasks have no definition-site error; their depth is never read.
  const RestoreTask: Task := Task(RestoreStack, None, None, 0)
  const PopTask: Task := Task(PopSubjects, None, None, 0)
  function WrapperTask(key: string): Task {
    Task(ChildWrapper(key), None, None, 0)
  }

  /** `spec[slot] || []` */
  function Hooks(s: Spec, k: HookKind): (r: seq<Task>)
    ensures |r| <= 1
    ensures r != [] <==> Get(s, SlotKey(k)).Some? && Get(s, SlotKey(k)).value.TaskEntry?
    ensures r != [] ==> r[0] == Get(s, SlotKey(k)).value.task
  {
    match Get(s, SlotKey(k))
    case Some(TaskEntry(t)) => [t]
    case _ => []
  }

  /** `beforeEach = [].concat(beforeEach, spec["\x01beforeEach"] || [])` */
  function BeforeEachChain(inherited: seq<Task>, s: Spec): seq<Task> {
    inherited + Hooks(s, BeforeEach)
  }

  /** `afterEach = [].concat(spec["\x01afterEach"] || [], afterEach)` */
  function AfterEachChain(s: Spec, inherited: seq<Task>): seq<Task> {
    Hooks(s, AfterEach) + inherited
  }

  /** A spec's own `o.specTimeout` replaces the inherited default delay. */
  function SpecDelay(s: Spec, inherited: int): int {
    match Get(s, TimeoutKey)
    case Some(TimeoutEntry(ms)) => ms
    case _ => inherited
  }

  /**
   * Whether the child stored under `key` gets a wrapper: hook slots and other
   * reserved keys never do; in `only` mode a test does only when its function
   * is flagged, while nested specs always do.
   */
  predicate Scheduled(key: string, e: Entry, only: seq<FnId>) {
    && !IsReserved(key)
    && (|| only == []
        || (e.TaskEntry? && e.task.body.UserFn? && e.task.body.fn in only)
        || !e.TaskEntry?)
  }

  /** The `reduce` over `Object.keys(spec)` that builds one wrapper per scheduled child. */
  function Wrappers(es: seq<(string, Entry)>, only: seq<FnId>): (r: seq<Task>)
    ensures |r| <= |es|
    ensures forall i :: 0 <= i < |r| ==> r[i].body.ChildWrapper? && r[i] == WrapperTask(r[i].body.key)
  {
    if es == [] then []
    else (if Scheduled(es[0].0, es[0].1, only) then [WrapperTask(es[0].0)] else []) + Wrappers(es[1..], only)
  }

  /** The list `runSpec` hands to `series`. */
  function SpecTasks(s: Spec, only: seq<FnId>, finalize: Task): seq<Task> {
    Hooks(s, Before) + Wrappers(s.entries, only) + Hooks(s, After) + [RestoreTask, finalize]
  }

  /** The list a test's wrapper hands to `series`. */
  function LeafTasks(beforeEach: seq<Task>, test: Task, afterEach: seq<Task>): seq<Task> {
    beforeEach + [test] + afterEach + [PopTask]
  }

  /** A test's series: the beforeEach chain, the test, the afterEach chain, then the breadcrumb pop. */
  lemma LeafTasksShape(beforeEach: seq<Task>, test: Task, afterEach: seq<Task>)
    ensures var r := LeafTasks(beforeEach, test, afterEach);
      && |r| == |beforeEach| + |afterEach| + 2
      && r[..|beforeEach|] == beforeEach && r[|beforeEach|] == test
      && r[|beforeEach| + 1..|r| - 1] == afterEach && r[|r| - 1] == PopTask
  {
  }

  /** The breadcrumb a hook pushes: `"[[ o.beforeEach** ]]"` with `depth - 1` asterisks. */
  function HookCrumb(name: string, depth: int): string {
    "[[ o." + name + Stars(if depth > 0 then depth - 1 else 0) + " ]]"
  }

  /** The breadcrumb stack while `t` runs: a hook adds its own crumb. */
  function TaskContext(t: Task, subjects: seq<string>): seq<string> {
    if t.hookName.Some? then subjects + [HookCrumb(t.hookName.value, t.depth)] else subjects
  }

  /** A task runs under its spec's breadcrumbs, and a hook adds exactly its own crumb on top. */
  lemma TaskContextShape(t: Task, subjects: seq<string>)
    ensures var r := TaskContext(t, subjects);
      && |r| == |subjects| + (if t.hookName.Some? then 1 else 0)
      && r[..|subjects|] == subjects
      && (t.hookName.Some? ==> r[|subjects|] == HookCrumb(t.hookName.value, t.depth))
  {
  }

  /** The events of `runSpec(s, beforeEach, afterEach, finalize, delay)`, entered with `subjects`. */
  function SpecTrace(s: Spec, beforeEach: seq<Task>, afterEach: seq<Task>, finalize: Task,
                     subjects: seq<string>, delay: int, only: seq<FnId>): seq<Event>
    decreases s, 2, 0
  {
    SeriesTrace(s, SpecTasks(s, only, finalize), BeforeEachChain(beforeEach, s), AfterEachChain(s, afterEach),
                subjects, SpecDelay(s, delay), only)
  }

  /** The events of `series(tasks, delay)` over the task list of spec `s`. */
  function SeriesTrace(s: Spec, tasks: seq<Task>, beforeEach: seq<Task>, afterEach: seq<Task>,
                       subjects: seq<string>, delay: int, only: seq<FnId>): seq<Event>
    decreases s, 1, |tasks|
  {
    if tasks == [] then []
    else TaskTrace(s, tasks[0], beforeEach, afterEach, subjects, delay, only) +
         SeriesTrace(s, tasks[1..], beforeEach, afterEach, subjects, delay, only)
  }

  /**
   * The events of one task of spec `s`: a child wrapper pushes its key and
   * runs the test between the hook chains, or the nested spec, ending with
   * `popSubjects`; any other task is one event.
   */
  function TaskTrace(s: Spec, t: Task, beforeEach: seq<Task>, afterEach: seq<Task>,
                     subjects: seq<string>, delay: int, only: seq<FnId>): seq<Event>
    decreases s, 0, 0
  {
    match t.body
    case ChildWrapper(k) =>
      var i := Find(s.entries, k);
      [Event(t, subjects, Forever)] +
      (if i < |s.entries| then
         match s.entries[i].1
         case TaskEntry(test) => PlainTrace(LeafTasks(beforeEach, test, afterEach), subjects + [k], delay)
         case SpecEntry(child) => SpecTrace(child, beforeEach, afterEach, PopTask, subjects + [k], delay, only)
         case TimeoutEntry(_) => []
       else [])
    case _ => [Event(t, TaskContext(t, subjects), Ms(delay))]
  }

  /** The events of a series of tasks none of which is a child wrapper. */
  function PlainTrace(tasks: seq<Task>, subjects: seq<string>, delay: int): (r: seq<Event>)
    ensures |r| == |tasks|
    ensures forall i :: 0 <= i < |tasks| ==> r[i] == Event(tasks[i], TaskContext(tasks[i], subjects), Ms(delay))
  {
    if tasks == [] then []
    else [Event(tasks[0], TaskContext(tasks[0], subjects), Ms(delay))] + PlainTrace(tasks[1..], subjects, delay)
  }

  /** The events of `o.run()` over the root spec, entered with `subjects`. */
  function RunTrace(root: Spec, subjects: seq<string>, only: seq<FnId>): seq<Event> {
    SpecTrace(root, [], [], Task(Finalizer, None, None, 1), subjects, DefaultDelay, only)
  }

  /** Dropping the first entry of a spec whose keys are distinct. */
  lemma UniqueTail(es: seq<(string, Entry)>)
    requires es != [] && UniqueKeys(Spec(es))
    ensures UniqueKeys(Spec(es[1..]))
    ensures forall j :: 1 <= j < |es| ==> Find(es, es[j].0) == 1 + Find(es[1..], es[j].0)
  {
    var tail := es[1..];
    forall i, j | 0 <= i < j < |tail| ensures tail[i].0 != tail[j].0 {
      assert tail[i] == es[i + 1] && tail[j] == es[j + 1];
    }
  }

  /**
   * In a spec whose keys are distinct, each wrapper is for an own key that
   * `Scheduled` admits.
   */
  lemma {:induction false} WrappersScheduled(es: seq<(string, Entry)>, only: seq<FnId>)
    requires UniqueKeys(Spec(es))
    ensures forall i :: 0 <= i < |Wrappers(es, only)| ==>
      && Find(es, Wrappers(es, only)[i].body.key) < |es|
      && Scheduled(Wrappers(es, only)[i].body.key, es[Find(es, Wrappers(es, only)[i].body.key)].1, only)
  {
    if es != [] {
      var tail := es[1..];
      UniqueTail(es);
      WrappersScheduled(tail, only);
      var w, rest := Wrappers(es, only), Wrappers(tail, only);
      var head := if Scheduled(es[0].0, es[0].1, only) then [WrapperTask(es[0].0)] else [];
      assert w == head + rest;
      forall i | |head| <= i < |w|
        ensures Find(es, w[i].body.key) < |es| && Scheduled(w[i].body.key, es[Find(es, w[i].body.key)].1, only)
      {
        assert w[i] == rest[i - |head|];
        var k := w[i].body.key;
        var j := Find(tail, k);
        assert es[j + 1] == tail[j];
      }
    }
  }

  /** Positions in `es` of the keys of the wrappers built from `es[1..]`. */
  lemma WrappersShift(es: seq<(string, Entry)>, only: seq<FnId>)
    requires es != [] && UniqueKeys(Spec(es))
    ensures forall i :: 0 <= i < |Wrappers(es[1..], only)| ==>
      Find(es, Wrappers(es[1..], only)[i].body.key) == 1 + Find(es[1..], Wrappers(es[1..], only)[i].body.key)
  {
    var tail := es[1..];
    UniqueTail(es);
    WrappersScheduled(tail, only);
    forall i | 0 <= i < |Wrappers(tail, only)|
      ensures Find(es, Wrappers(tail, only)[i].body.key) == 1 + Find(tail, Wrappers(tail, only)[i].body.key)
    {
      var j := Find(tail, Wrappers(tail, only)[i].body.key);
      assert tail[j] == es[j + 1];
    }
  }

  /** The wrappers follow the order of the spec's keys. */
  lemma {:induction false} WrappersInKeyOrder(es: seq<(string, Entry)>, only: seq<FnId>)
    requires UniqueKeys(Spec(es))
    ensures forall p, q :: 0 <= p < q < |Wrappers(es, only)| ==>
      Find(es, Wrappers(es, only)[p].body.key) < Find(es, Wrappers(es, only)[q].body.key)
  {
    if es != [] {
      var tail := es[1..];
      UniqueTail(es);
      WrappersInKeyOrder(tail, only);
      WrappersShift(es, only);
      var w, rest := Wrappers(es, only), Wrappers(tail, only);
      if Scheduled(es[0].0, es[0].1, only) {
        assert w == [WrapperTask(es[0].0)] + rest;
        forall p, q | 0 <= p < q < |w| ensures Find(es, w[p].body.key) < Find(es, w[q].body.key) {
          assert w[q] == rest[q - 1];
          if p > 0 {
            assert w[p] == rest[p - 1];
          }
        }
      } else {
        assert w == rest;
      }
    }
  }

  /** Every child that `Scheduled` admits gets a wrapper, and no other does. */
  lemma {:induction false} WrappersCover(es: seq<(string, Entry)>, only: seq<FnId>)
    requires UniqueKeys(Spec(es))
    ensures forall j :: 0 <= j < |es| ==>
      (WrapperTask(es[j].0) in Wrappers(es, only) <==> Scheduled(es[j].0, es[j].1, only))
  {
    if es != [] {
      var tail := es[1..];
      UniqueTail(es);
      WrappersCover(tail, only);
      WrappersScheduled(tail, only);
      var w, rest := Wrappers(es, only), Wrappers(tail, only);
      var head := if Scheduled(es[0].0, es[0].1, only) then [WrapperTask(es[0].0)] else [];
      assert w == head + rest;
      assert WrapperTask(es[0].0) !in rest by {
        forall i | 0 <= i < |rest| ensures rest[i] != WrapperTask(es[0].0) {
          var j := Find(tail, rest[i].body.key);
          assert tail[j] == es[j + 1];
        }
      }
      forall j | 1 <= j < |es|
        ensures WrapperTask(es[j].0) in w <==> Scheduled(es[j].0, es[j].1, only)
      {
        assert tail[j - 1] == es[j];
        assert es[0].0 != es[j].0;
      }
    }
  }

  predicate AllUser(ts: seq<Task>) {
    forall i :: 0 <= i < |ts| ==> IsUserTask(ts[i])
  }

  /** Hook slots hold user tasks in a well-formed spec. */
  lemma HooksUser(s: Spec, k: HookKind)
    requires WellFormed(s)
    ensures AllUser(Hooks(s, k))
  {
    if Hooks(s, k) != [] {
      var i := Find(s.entries, SlotKey(k));
      assert EntryFits(s.entries[i].0, s.entries[i].1);
    }
  }

  /**
   * Which children of a well-formed spec the task list runs: one wrapper per
   * unreserved key, except that in `only` mode a test needs its function
   * flagged; a nested spec always runs. A wrapper is never for a hook slot.
   */
  lemma SpecChildren(s: Spec, only: seq<FnId>, finalize: Task)
    requires WellFormed(s) && !finalize.body.ChildWrapper?
    ensures forall j :: 0 <= j < |s.entries| ==>
      (WrapperTask(s.entries[j].0) in SpecTasks(s, only, finalize) <==>
        && !IsReserved(s.entries[j].0)
        && (s.entries[j].1.TaskEntry? ==> only == [] || s.entries[j].1.task.body.fn in only))
    ensures forall i :: 0 <= i < |SpecTasks(s, only, finalize)| && SpecTasks(s, only, finalize)[i].body.ChildWrapper? ==>
      && Has(s, SpecTasks(s, only, finalize)[i].body.key)
      && !IsReserved(SpecTasks(s, only, finalize)[i].body.key)
  {
    var tasks := SpecTasks(s, only, finalize);
    var b, w, a := Hooks(s, Before), Wrappers(s.entries, only), Hooks(s, After);
    assert tasks == b + w + a + [RestoreTask, finalize];
    HooksUser(s, Before);
    HooksUser(s, After);
    WrappersCover(s.entries, only);
    WrappersScheduled(s.entries, only);
    forall j | 0 <= j < |s.entries|
      ensures WrapperTask(s.entries[j].0) in tasks <==> WrapperTask(s.entries[j].0) in w
    {
      var t := WrapperTask(s.entries[j].0);
      assert t in tasks ==> t in b || t in w || t in a || t in [RestoreTask, finalize];
    }
    forall j | 0 <= j < |s.entries|
      ensures Scheduled(s.entries[j].0, s.entries[j].1, only) <==>
        && !IsReserved(s.entries[j].0)
        && (s.entries[j].1.TaskEntry? ==> only == [] || s.entries[j].1.task.body.fn in only)
    {
      assert EntryFits(s.entries[j].0, s.entries[j].1);
    }
    forall i | 0 <= i < |tasks| && tasks[i].body.ChildWrapper?
      ensures Has(s, tasks[i].body.key) && !IsReserved(tasks[i].body.key)
    {
      if |b| <= i < |b| + |w| {
        assert tasks[i] == w[i - |b|];
      }
    }
  }

  /** `series` over two lists one after the other. */
  lemma {:induction false} SeriesTraceAppend(s: Spec, a: seq<Task>, b: seq<Task>, beforeEach: seq<Task>,
                                             afterEach: seq<Task>, subjects: seq<string>, delay: int, only: seq<FnId>)
    ensures SeriesTrace(s, a + b, beforeEach, afterEach, subjects, delay, only) ==
            SeriesTrace(s, a, beforeEach, afterEach, subjects, delay, only) +
            SeriesTrace(s, b, beforeEach, afterEach, subjects, delay, only)
  {
    if a == [] {
      assert a + b == b;
    } else {
      assert (a + b)[0] == a[0];
      assert (a + b)[1..] == a[1..] + b;
      SeriesTraceAppend(s, a[1..], b, beforeEach, afterEach, subjects, delay, only);
    }
  }

  /** `seg` occurs as a contiguous run of `xs`. */
  predicate Occurs<T(==)>(seg: seq<T>, xs: seq<T>) {
    exists i :: 0 <= i <= |xs| - |seg| && xs[i..][..|seg|] == seg
  }

  /** The events of the task at position `m` of a series occur in the series' events. */
  lemma SeriesSegment(s: Spec, tasks: seq<Task>, m: nat, beforeEach: seq<Task>, afterEach: seq<Task>,
                      subjects: seq<string>, delay: int, only: seq<FnId>)
    requires m < |tasks|
    ensures Occurs(TaskTrace(s, tasks[m], beforeEach, afterEach, subjects, delay, only),
                   SeriesTrace(s, tasks, beforeEach, afterEach, subjects, delay, only))
  {
    var pre, post := tasks[..m], tasks[m + 1..];
    assert tasks == pre + ([tasks[m]] + post);
    SeriesTraceAppend(s, pre, [tasks[m]] + post, beforeEach, afterEach, subjects, delay, only);
    SeriesTraceAppend(s, [tasks[m]], post, beforeEach, afterEach, subjects, delay, only);
    assert [tasks[m]][1..] == [];
    var x := SeriesTrace(s, pre, beforeEach, afterEach, subjects, delay, only);
    var y := TaskTrace(s, tasks[m], beforeEach, afterEach, subjects, delay, only);
    var z := SeriesTrace(s, post, beforeEach, afterEach, subjects, delay, only);
    var all := SeriesTrace(s, tasks, beforeEach, afterEach, subjects, delay, only);
    assert all == x + (y + z);
    assert all[|x|..][..|y|] == y;
  }

  /**
   * A scheduled test of a spec entered with the inherited chains `B` and
   * `A`: its wrapper runs, then `B ++ [own beforeEach]`, the test,
   * `[own afterEach] ++ A` and `popSubjects`, all under the breadcrumbs
   * extended with the test's key and the spec's delay.
   */
  lemma TestSegment(s: Spec, j: nat, inheritedBefore: seq<Task>, inheritedAfter: seq<Task>, finalize: Task,
                    subjects: seq<string>, delay: int, only: seq<FnId>)
    requires WellFormed(s) && !finalize.body.ChildWrapper?
    requires j < |s.entries| && s.entries[j].1.TaskEntry? && Scheduled(s.entries[j].0, s.entries[j].1, only)
    ensures Occurs([Event(WrapperTask(s.entries[j].0), subjects, Forever)] +
                   PlainTrace(BeforeEachChain(inheritedBefore, s) + [s.entries[j].1.task] +
                              AfterEachChain(s, inheritedAfter) + [PopTask],
                              subjects + [s.entries[j].0], SpecDelay(s, delay)),
                   SpecTrace(s, inheritedBefore, inheritedAfter, finalize, subjects, delay, only))
  {
    var k := s.entries[j].0;
    var tasks := SpecTasks(s, only, finalize);
    SpecChildren(s, only, finalize);
    assert WrapperTask(k) in tasks;
    var m :| 0 <= m < |tasks| && tasks[m] == WrapperTask(k);
    FindIs(s.entries, k, j);
    SeriesSegment(s, tasks, m, BeforeEachChain(inheritedBefore, s), AfterEachChain(s, inheritedAfter),
                  subjects, SpecDelay(s, delay), only);
  }

  /**
   * A nested spec runs as `runSpec` of the child, entered with the chains
   * `B ++ [own beforeEach]` and `[own afterEach] ++ A`, the breadcrumbs
   * extended with its key, the parent's delay and `popSubjects` as finalizer.
   */
  lemma ChildSpecSegment(s: Spec, j: nat, inheritedBefore: seq<Task>, inheritedAfter: seq<Task>, finalize: Task,
                         subjects: seq<string>, delay: int, only: seq<FnId>)
    requires WellFormed(s) && !finalize.body.ChildWrapper?
    requires j < |s.entries| && s.entries[j].1.SpecEntry?
    ensures Occurs([Event(WrapperTask(s.entries[j].0), subjects, Forever)] +
                   SpecTrace(s.entries[j].1.spec, BeforeEachChain(inheritedBefore, s), AfterEachChain(s, inheritedAfter),
                             PopTask, subjects + [s.entries[j].0], SpecDelay(s, delay), only),
                   SpecTrace(s, inheritedBefore, inheritedAfter, finalize, subjects, delay, only))
  {
    var k := s.entries[j].0;
    var tasks := SpecTasks(s, only, finalize);
    SpecChildren(s, only, finalize);
    assert EntryFits(k, s.entries[j].1);
    assert WrapperTask(k) in tasks;
    var m :| 0 <= m < |tasks| && tasks[m] == WrapperTask(k);
    FindIs(s.entries, k, j);
    SeriesSegment(s, tasks, m, BeforeEachChain(inheritedBefore, s), AfterEachChain(s, inheritedAfter),
                  subjects, SpecDelay(s, delay), only);
  }

  /**
   * Breadcrumbs only grow inside a run: every event of `runSpec` entered
   * with `subjects` runs under a stack that starts with `subjects`.
   */
  lemma {:induction false} SpecTraceContexts(s: Spec, beforeEach: seq<Task>, afterEach: seq<Task>, finalize: Task,
                                             subjects: seq<string>, delay: int, only: seq<FnId>)
    ensures forall e :: e in SpecTrace(s, beforeEach, afterEach, finalize, subjects, delay, only) ==> subjects <= e.context
    decreases s, 2, 0
  {
    SeriesTraceContexts(s, SpecTasks(s, only, finalize), BeforeEachChain(beforeEach, s), AfterEachChain(s, afterEach),
                        subjects, SpecDelay(s, delay), only);
  }

  lemma {:induction false} SeriesTraceContexts(s: Spec, tasks: seq<Task>, beforeEach: seq<Task>, afterEach: seq<Task>,
                                               subjects: seq<string>, delay: int, only: seq<FnId>)
    ensures forall e :: e in SeriesTrace(s, tasks, beforeEach, afterEach, subjects, delay, only) ==> subjects <= e.context
    decreases s, 1, |tasks|
  {
    if tasks != [] {
      TaskTraceContexts(s, tasks[0], beforeEach, afterEach, subjects, delay, only);
      SeriesTraceContexts(s, tasks[1..], beforeEach, afterEach, subjects, delay, only);
    }
  }

  lemma {:induction false} TaskTraceContexts(s: Spec, t: Task, beforeEach: seq<Task>, afterEach: seq<Task>,
                                             subjects: seq<string>, delay: int, only: seq<FnId>)
    ensures forall e :: e in TaskTrace(s, t, beforeEach, afterEach, subjects, delay, only) ==> subjects <= e.context
    decreases s, 0, 0
  {
    if t.body.ChildWrapper? {
      var k := t.body.key;
      var i := Find(s.entries, k);
      var inner := subjects + [k];
      assert subjects <= inner;
      if i < |s.entries| {
        match s.entries[i].1 {
          case TaskEntry(test) =>
            var ts := LeafTasks(beforeEach, test, afterEach);
            forall e | e in PlainTrace(ts, inner, delay) ensures subjects <= e.context {
              var n :| 0 <= n < |ts| && PlainTrace(ts, inner, delay)[n] == e;
              assert inner <= e.context;
            }
          case SpecEntry(child) =>
            SpecTraceContexts(child, beforeEach, afterEach, PopTask, inner, delay, only);
            forall e | e in SpecTrace(child, beforeEach, afterEach, PopTask, inner, delay, only)
              ensures subjects <= e.context
            {
              assert inner <= e.context;
            }
          case TimeoutEntry(_) =>
        }
      }
    }
  }

  /** Every `runSpec` ends with `restoreStack` and then its finalizer, both under the spec's delay. */
  lemma SpecTraceEnds(s: Spec, beforeEach: seq<Task>, afterEach: seq<Task>, finalize: Task,
                      subjects: seq<string>, delay: int, only: seq<FnId>)
    requires !finalize.body.ChildWrapper?
    ensures var r := SpecTrace(s, beforeEach, afterEach, finalize, subjects, delay, only);
      && |r| >= 2
      && r[|r| - 2] == Event(RestoreTask, subjects, Ms(SpecDelay(s, delay)))
      && r[|r| - 1] == Event(finalize, TaskContext(finalize, subjects), Ms(SpecDelay(s, delay)))
  {
    var tasks := SpecTasks(s, only, finalize);
    var front := Hooks(s, Before) + Wrappers(s.entries, only) + Hooks(s, After);
    var last := [RestoreTask, finalize];
    var be, ae, d := BeforeEachChain(beforeEach, s), AfterEachChain(s, afterEach), SpecDelay(s, delay);
    assert tasks == front + last;
    SeriesTraceAppend(s, front, last, be, ae, subjects, d, only);
    assert last[1..][1..] == [];
    var tail := SeriesTrace(s, last, be, ae, subjects, d, only);
    assert TaskTrace(s, RestoreTask, be, ae, subjects, d, only) == [Event(RestoreTask, subjects, Ms(d))];
    assert TaskTrace(s, finalize, be, ae, subjects, d, only) == [Event(finalize, TaskContext(finalize, subjects), Ms(d))];
    assert SeriesTrace(s, last[1..], be, ae, subjects, d, only) == [Event(finalize, TaskContext(finalize, subjects), Ms(d))];
    assert tail == [Event(RestoreTask, subjects, Ms(d)), Event(finalize, TaskContext(finalize, subjects), Ms(d))];
    var r := SpecTrace(s, beforeEach, afterEach, finalize, subjects, delay, only);
    assert r == SeriesTrace(s, front, be, ae, subjects, d, only) + tail;
  }
}
