# ospec core, modelled in Dafny

ospec is a small JavaScript test framework. Its whole core lives in one file, `ospec.js`, and works in two phases:

- **Definition.** `o(name, fn)`, the hook registrars (`o.before`, `o.after`, `o.beforeEach`, `o.afterEach`), `o.specTimeout`, `o.spec` and `o.only` build a tree of plain objects. Each object is an ordered dictionary from test names to tasks or nested specs. Four reserved keys starting with U+0001 hold the hook slots, and one more holds the spec's default delay.
- **Running.** `o.run` walks the tree with `runSpec` and `series`:
  - every spec becomes a task list: `before`, one wrapper per scheduled child, `after`, `restoreStack` and a finalizer;
  - a test runs between the composed `beforeEach` and `afterEach` chains;
  - a per-task closure state (`isDone`, the timer, the delay and the `current === cursor` check) decides how a task settles and when the series moves on;
  - every assertion pushes a result record, and `o.report` counts the failed ones.

The project models these parts:

| file | module | what it models |
|---|---|---|
| `common.dfy` | `Common` | `Option`, `Outcome`, string helpers (`Join`, `Contains`, `StartsWith`, number printing) |
| `values.dfy` | `Values` | a JSON-like value datatype: primitives, arrays, plain objects with ordered own keys |
| `deep_equal.dfy` | `DeepEqual` | `deepEqual` over those values, and its agreement with a shape-equality reference |
| `definition.dfy` | `Definition` | the spec tree as an ordered key/entry list with `Put`, `unique`, and the `Suite` class. `Suite` holds the definition-time globals; an explicit stack of open spec frames stands in for `ctx` |
| `plan.dfy` | `Plan` | `runSpec`'s task list (hooks, `only` filter, wrappers in key order) and the trace of executed tasks, with timing abstracted away |
| `settlement.dfy` | `Settlement` | the closure state of one `next()` as the class `Step`: `done`, `finalizeAsync`, the timer, `setDelay` and `o.timeout` |
| `results.dfy` | `Results` | result records, `succeed`, `fail`, `createAssertion`, the message closure and `o.report` |
| `runner.dfy` | `Runner` | `o.run`, `runSpec`, `series` and `next` as an imperative machine over `subjects`, `results` and the executed trace. Each method is proved to produce the `Plan` trace and the records it implies |
| `stack_trace.dfy` | `StackTrace` | `o.cleanStackTrace` over the text of a stack |
| `spies.dfy` | `Spies` | `o.spy` as a class whose fields are `calls`, `args`, `this` and `callCount` |

Time, promises and user code are inputs:
- Timer expiry, `done()` and the callback of a returned promise are method calls made by the environment, in whatever order it chooses.
- What a test body does (its assertions and how it settles) is a `Behaviour` the runner is given per function.
- A function's identity is a number (`FnId`), as is the identity of a definition-site `Error` (`ErrId`).
- JavaScript numbers are modelled as integers. `Infinity` appears only as the wrappers' delay, `Delay.Forever`.

A test can settle more than once. The comment on `done` (`ospec.js:273`) says it may be called only once from user code. The model follows the code's behaviour:
- The timer's callback (`ospec.js:298-300`) calls `finalizeAsync` without setting `isDone`. A `done()` that arrives after the timeout therefore pushes a second record (`ospec.js:274-283`).
- The series still moves on only once, because `current === cursor` fails the second time.
- A settlement after the task's first one has called `next()` builds its record with `new Assert()` from the globals at that moment (`ospec.js:283-286`, `ospec.js:353`). By then `subjects` and `currentTestError` belong to a later task. `Step` takes that record as the `now` argument.
- `Settlement.LateDoneAfterTimeout` proves this sequence: a timeout failure from the test's own record, then a success from the later one, and one `next()`.
- `Settlement.DoneTwiceInBody` proves the same for a second `done()` inside the body: it throws into the body's `catch` (`ospec.js:318-324`), which records a failure as well.

## Model

| member | source | states |
|---|---|---|
| DeepEqual.DeepEqual | ospec.js:397-418 | the definition of `deepEqual`: `===` on primitives, the null/undefined mismatch test, then for two objects the loop over `a`'s keys (each in `b`, deep-equal values) and the loop over `b`'s keys (each in `a`), and for two arrays equal length and pairwise deep-equal items. It has no contract of its own; the lemmas below characterise it |
| DeepEqual.DeepEqualIsShapeEquality | ospec.js:397-418 | two well-formed values are `deepEqual` exactly when they have the same shape: equal primitives, or arrays of equal length whose items are pairwise deep-equal, or objects with the same set of keys whose values are deep-equal key by key, in any key order. This holds for objects whose keys name no `Object.prototype` member and no own `constructor` (see "## Left out") |
| DeepEqual.DeepEqualReflexive | ospec.js:397-418 | every well-formed value is `deepEqual` to itself |
| DeepEqual.DeepEqualSymmetric | ospec.js:397-418 | `deepEqual(a, b)` and `deepEqual(b, a)` agree, although the function makes its two key loops asymmetrically. This holds for objects whose keys name no `Object.prototype` member and no own `constructor` |
| DeepEqual.PropsMatchAll | ospec.js:403-405 | the first object loop succeeds iff every key of `a` is in `b` with a deep-equal value |
| DeepEqual.ItemsMatchAll | ospec.js:414-416 | the array loop succeeds iff the items are pairwise deep-equal |
| DeepEqual.ObjectsForward | ospec.js:400-410 | deep-equal objects have the same key-to-shape map |
| DeepEqual.ObjectsBackward | ospec.js:400-410 | objects with the same key-to-shape map are deep-equal |
| DeepEqual.KeysBackward | ospec.js:406-408 | under equal key-to-shape maps, the second loop finds every key of `b` in `a` |
| Definition.Has | ospec.js:70-72 | `hasOwn.call(ctx, k)`: some entry has key `k` |
| Definition.IsReserved | ospec.js:84 | `key.charCodeAt(0) === 1`: the key is non-empty and starts with the 0x01 character that marks hook slots and the specTimeout key |
| Definition.HookName | ospec.js:60-61 | `name.slice(1)`: the name a hook's breadcrumb and error message print, such as `beforeEach` |
| Definition.SlotKey | ospec.js:89-92 | the reserved key `"\x01" + name` under which `o.before`, `o.after`, `o.beforeEach` and `o.afterEach` store their hook |
| Definition.SlotKeyReserved | ospec.js:89-92 | a hook slot is reserved, names its hook after the 0x01, differs from the specTimeout key, and two slots are equal only for the same kind of hook |
| Definition.Message | ospec.js:39-97 | the texts thrown by the definition API: reserved name, nested definition, duplicate hook, the three `o.specTimeout` refusals and an assertion outside a test |
| Definition.DuplicateHookText | ospec.js:60 | a repeated hook throws "<name> should be defined outside of a loop or inside a nested test group." with the hook's own name |
| Definition.Get | ospec.js:60 | `ctx[k]` read as an own key: the entry stored under `k`, which exists exactly when `Has` holds |
| Definition.Put | ospec.js:85 | assigning `ctx[k]` makes `k` map to the new entry and leaves every other key's entry unchanged. An existing key keeps its position; a new key goes after all others. Distinct keys stay distinct |
| Definition.FreeName | ospec.js:69-75 | the name `unique(subject)` returns: the subject while it is not an own key, else the subject with one more `*`. It has no contract of its own; `FreeNameSpec` characterises it |
| Definition.FreeNameSpec | ospec.js:69-75 | the name `unique` settles on is not an own key. It is the subject itself exactly when the subject is free; otherwise it is the subject followed by the fewest `*` that make it free |
| Definition.FreeNameIsFree | ospec.js:69-75 | the chosen name is not an own key of `ctx` |
| Definition.FreeNameShape | ospec.js:69-75 | the chosen name is the subject followed by asterisks, and at least one when the subject was taken |
| Definition.FreeNameTaken | ospec.js:69-75 | every shorter run of asterisks after the subject names a taken key |
| Definition.FreeNameUnreserved | ospec.js:69-75 | `unique` turns an unreserved subject into an unreserved name, since it only appends `*` |
| Definition.PutWellFormed | ospec.js:58-99 | storing an entry that fits its key keeps an object well formed. Fitting means: keys stay distinct, slots and test names hold user tasks, the delay sits only under its reserved key, and nested specs only under unreserved keys. The registrars store only such entries |
| Definition.StoreSound | ospec.js:58-99 | storing a fitting entry in `ctx` keeps every open spec well formed |
| Definition.StoreUnique | ospec.js:58-99 | storing an entry in `ctx` keeps the keys of every open spec distinct |
| Definition.OpenSound | ospec.js:103-108 | opening a fresh spec under an unreserved name keeps every open spec well formed |
| Definition.OpenUnique | ospec.js:103-108 | opening a fresh spec keeps the keys of every open spec distinct |
| Definition.FoldSound | ospec.js:110-112 | returning to the parent keeps every open spec well formed |
| Definition.FoldUnique | ospec.js:110-112 | returning to the parent keeps the keys of every open spec distinct |
| Definition.CloseWellFormed | ospec.js:103-112 | a stack of well-formed open specs, nested under unreserved keys, closes into a well-formed tree |
| Definition.SoundTree | ospec.js:78-112 | the tree of a suite whose open specs are all sound is well formed, which is what `o.run` needs of its tree |
| Definition.Suite.Unique | ospec.js:69-75 | the `while` loop returns the free name, and the collision warning is issued iff the subject was already an own key |
| Definition.Suite.constructor | ospec.js:8-21 | a fresh instance has an empty root, `depth` 1, an empty `only` list and no run. With a name, all definitions go into a spec stored under that name. The start is sound unless the name is reserved |
| Definition.Suite.StoreInCtx | ospec.js:58-99 | `ctx[key] = entry` for a fitting entry changes only `ctx` and keeps the suite sound |
| Definition.Suite.Define | ospec.js:78-87 | `o(name, fn)` throws for a reserved name, then refuses nested definitions while running. Otherwise it stores a new user task, with a fresh definition-site error, under `unique(name)` in `ctx`; nothing else changes. A sound suite stays sound |
| Definition.Suite.UserTask | ospec.js:35-44 | `new Task(fn, err, hookName)` for a user function: a user task carrying a fresh definition-site error, the given hook name and the current `depth` |
| Definition.Suite.Assertion | ospec.js:79-81 | `o(value)` without a function throws unless a run is in progress |
| Definition.Suite.IsRunning | ospec.js:46 | `isRunning()`: whether `o.run` has started (`results != null`) |
| Definition.Suite.Hook | ospec.js:58-63 | a hook registrar throws when its slot in `ctx` is already filled, then refuses nested definitions while running. Otherwise it fills the slot with a task named after the hook; on failure nothing changes. A sound suite stays sound |
| Definition.SecondHookRejected | ospec.js:58-63 | a second hook of the same kind is refused with `DuplicateHook`, whose `Message` is "<name> should be defined outside of a loop or inside a nested test group.", and the first hook stays in its slot |
| Definition.Suite.SpecTimeout | ospec.js:94-99 | `o.specTimeout(t)` throws while running, then on a second call in the same spec, then for a non-number. Otherwise it stores `t` under the reserved key. A sound suite stays sound |
| Definition.Suite.EnterSpec | ospec.js:103-108 | `o.spec` stores a fresh empty object under `unique(subject)` in `ctx`, makes it `ctx`, and increments `depth`. A sound suite stays sound when the subject is not reserved |
| Definition.Suite.LeaveSpec | ospec.js:110-112 | after the builder, the parent becomes `ctx` again and `depth` is restored. The tree seen from the root is unchanged, and a sound suite stays sound |
| Definition.Suite.Only | ospec.js:115-122 | `o.only` appends the function to the `only` list even when the definition then throws. Otherwise it defines it like `o()`: the same frames, a fresh definition-site error only on success, `depth` and `running` unchanged, and a sound suite stays sound |
| Definition.Suite.BeginRun | ospec.js:180-181 | after `o.run` sets `results`, `isRunning()` holds and the tree is unchanged |
| Plan.BeforeEachChain | ospec.js:208 | `[].concat(beforeEach, spec["\x01beforeEach"] \|\| [])`: the inherited chain, then the spec's own hook |
| Plan.AfterEachChain | ospec.js:209 | `[].concat(spec["\x01afterEach"] \|\| [], afterEach)`: the spec's own hook, then the inherited chain |
| Plan.SpecDelay | ospec.js:202 | a spec's own `o.specTimeout` replaces the inherited delay |
| Plan.Scheduled | ospec.js:215-224 | the filter of the `reduce`: a key that is not reserved and, in `only` mode, a flagged test or a nested spec; `Plan.SpecChildren` states it as an iff |
| Plan.Wrappers | ospec.js:214-243 | one wrapper task per scheduled child, in key order, each for that child's key |
| Plan.SpecTasks | ospec.js:211-247 | the list `runSpec` hands to `series`: the `before` slot, the wrappers, the `after` slot, `restoreStack` and the finalizer |
| Plan.HookCrumb | ospec.js:270 | a hook's breadcrumb `[[ o.<name> ]]` with `depth - 1` asterisks |
| Plan.TaskContext | ospec.js:269-271 | the breadcrumbs while a task runs: a hook pushes its crumb, any other task runs under the spec's crumbs |
| Plan.TaskContextShape | ospec.js:269-271 | a task's breadcrumbs extend the spec's, by exactly the hook's crumb for a hook and by nothing otherwise |
| Plan.LeafTasks | ospec.js:229-235 | the series a test's wrapper runs: `[].concat(beforeEach, test, afterEach, popSubjects)` |
| Plan.LeafTasksShape | ospec.js:229-235 | that series is the beforeEach chain, then the test, then the afterEach chain, then the breadcrumb pop, and nothing else |
| Plan.SpecTrace | ospec.js:197-250 | the events of `runSpec`: the series over `SpecTasks` with the composed chains and the spec's delay |
| Plan.RunTrace | ospec.js:195 | the events of `runSpec(spec, [], [], finalizer, 200)`: the root spec with empty chains under the default delay |
| Plan.SeriesTrace | ospec.js:252-259 | the events of `series`: each task's events in list order |
| Plan.TaskTrace | ospec.js:226-240 | one task's events: a wrapper for a test runs the chain `beforeEach, test, afterEach, popSubjects` under the extended breadcrumbs, a wrapper for a spec runs that spec with `popSubjects` as finalizer, and any other task is one event |
| Plan.Hooks | ospec.js:213 | `spec[slot] \|\| []` is the one task in the slot, or nothing when the slot is empty |
| Plan.WrappersScheduled | ospec.js:214-226 | each wrapper of the `reduce` is for an own key of the spec that the filter admits |
| Plan.WrappersInKeyOrder | ospec.js:214 | the wrappers come in the order of the spec's keys |
| Plan.WrappersCover | ospec.js:215-224 | a child gets a wrapper iff the filter admits it |
| Plan.SpecChildren | ospec.js:211-247 | in a spec's task list, a child has a wrapper iff its key is not reserved and, when it is a test, `only` is empty or holds its function. Nested specs always run, and no wrapper is ever for a hook slot |
| Plan.TestSegment | ospec.js:208-235 | a scheduled test runs its wrapper, then the inherited `beforeEach` chain followed by the spec's own, the test, the spec's own `afterEach` followed by the inherited chain, and `popSubjects`. All of these run under the breadcrumbs extended with the test's name, in the spec's delay |
| Plan.ChildSpecSegment | ospec.js:208-238 | a nested spec runs, after its wrapper, with the chains composed parent-first (`beforeEach`) and own-first (`afterEach`), the breadcrumbs extended with its name, and `popSubjects` as its finalizer |
| Plan.SeriesSegment | ospec.js:252-259 | the events of each task of a series appear contiguously in the series' events |
| Plan.SeriesTraceAppend | ospec.js:252-259 | a series over two lists runs the first list's tasks, then the second's |
| Plan.SpecTraceContexts | ospec.js:226-240 | every task of a spec entered with breadcrumbs `subjects` runs under a breadcrumb stack that extends `subjects` |
| Plan.SpecTraceEnds | ospec.js:244-248 | every spec's run ends with `restoreStack` and then its finalizer, under the spec's breadcrumbs and delay |
| Results.NewRecord | ospec.js:350-356 | `new Assert()` pushes a record with `pass` null, the "Incomplete assertion" message, the breadcrumbs joined with `" > "`, and the current test's error as `error` and `testError` |
| Results.SucceedRecord | ospec.js:444-447 | `succeed` sets `pass` to true and the message, and keeps everything else |
| Results.FailRecord | ospec.js:449-453 | `fail` sets `pass` to false and the message, and sets `error` to the given error or a fresh one when none is given |
| Results.Assertion | ospec.js:358-366 | an assertion passes with the message its comparison returned. If the comparison threw an Error, it fails with that Error's message and the Error; if it threw another value, it fails with that value as message and a fresh error |
| Results.Annotate | ospec.js:367-371 | the closure an assertion returns puts `message + "\n\n"` in front of the record's message only when the record did not pass, and changes nothing else |
| Results.FailureCount | ospec.js:486-500 | the number of records whose `pass` is falsy, at most the number of records |
| Results.Summary | ospec.js:502-505 | the summary line: "All n assertions passed" (or "The 1 assertion passed") with no failures, else "f out of n assertion(s) failed" |
| Results.FailureCountAppend | ospec.js:480-501 | failures of two record lists add up |
| Results.FailureCountZero | ospec.js:486-505 | the count is zero iff every record passed, and equals the length iff none passed |
| Results.FirstUnresolved | ospec.js:480-485 | the position of the first record whose `pass` is null: every earlier record is resolved, and the position is the list's length when none is null |
| Results.ReportResults | ospec.js:478-513 | `o.report` throws iff some record's `pass` is null, and then for the first such record (`FirstUnresolved`): its `testError` with the record's message, or a `TypeError` when that `testError` is null. Otherwise it returns the number of records that did not pass, with the pluralised summary |
| Settlement.FinalRecords | ospec.js:281-287 | `finalizeAsync` records a success only for a user task that settled without error, and nothing for an internal one. Any error is a failure: an Error object's message with the Error, or any other value as text with a fresh error. Every record keeps the breadcrumbs and `testError` it was built from |
| Settlement.DoneTwiceMessage | ospec.js:276 | the error a repeated `done` throws: `'<arg>()' should only be called once.` |
| Settlement.Drop | ospec.js:293 | `subjects.pop()`: the stack without its last crumb, and an empty stack unchanged |
| Settlement.TimeoutMessage | ospec.js:300 | the timeout failure reads "async test timed out after …" |
| Settlement.DelayText | ospec.js:300 | `String(delay)` in the timeout text: the number of milliseconds, or "Infinity" |
| Settlement.Step.constructor | ospec.js:259-271 | `next()` moves the cursor past the task, sets `currentTestError`, installs `setDelay` as `o.timeout`'s target, and pushes a hook's crumb. The task starts not done, with no timer and the series' delay. Its records start from `new Assert()` over those breadcrumbs and that error |
| Settlement.Step.Next | ospec.js:256-259 | the step's one call of `next()` moves the cursor unless the series has ended. When it starts another task, `o.timeout` is switched off again by the time control returns (`ospec.js:345`) |
| Settlement.Step.FinalizeAsync | ospec.js:281-296 | a settlement pushes its record and clears the timer. The record is built from the task's own globals before the step has called `next()`, and from the current ones afterwards. Only when the cursor still stands just past this task does it pop a hook's crumb and call `next()`, so the cursor moves at most once per task (`Valid`) |
| Settlement.Step.Done | ospec.js:274-279 | the first `done` marks the task done and settles it like `finalizeAsync`, with the whole new state stated. Every later call throws "'done()' should only be called once." and changes nothing |
| Settlement.Step.TimerFires | ospec.js:297-301 | the timer fails the task with a message naming the delay in force when it fires, settles it like `finalizeAsync`, and leaves `isDone` unset |
| Settlement.Step.StartTimer | ospec.js:297-302 | starting the timer leaves everything else unchanged |
| Settlement.Step.SetDelay | ospec.js:303-306 | a number replaces the delay; anything else throws and leaves it unchanged |
| Settlement.Step.GlobalTimeout | ospec.js:162-164 | `o.timeout` reaches `setDelay` only during the synchronous part of `next()`. Otherwise it throws "o.timeout must be called snchronously …" and leaves the delay unchanged |
| Settlement.Step.AfterCallback | ospec.js:326-345 | after a callback-style body returns, the timer starts unless the body already settled, and `o.timeout` is switched off |
| Settlement.Step.ReturnedPromise | ospec.js:330-345 | a body without `done` that returned a promise starts the timer, and `o.timeout` is switched off |
| Settlement.Step.ReturnedSynchronously | ospec.js:335-338 | a plain return pushes no record, pops a hook's crumb, calls `next()` and switches `o.timeout` off. `isDone`, the timer and the delay are unchanged |
| Settlement.Step.Threw | ospec.js:318-345 | a synchronous throw settles a user task like `finalizeAsync`, without marking it done, and switches `o.timeout` off. A thrown `null` or `undefined` settles it as a success. For an internal task the value is thrown on and nothing changes |
| Settlement.LateDoneAfterTimeout | ospec.js:274-301 | a timeout followed by a late `done()` records the timeout failure from the test's own record, then a success from the record `new Assert()` makes after the series moved on, and moves the series once |
| Settlement.DoneTwice | ospec.js:274-279 | calling `done()` twice after the body has returned records one success, and the second call throws |
| Settlement.DoneTwiceInBody | ospec.js:274-324 | calling `done()` twice inside the body records a success, then a failure carrying the once-only error, built from the globals of the task that is current by then; the series moves once |
| Settlement.ThrowNull | ospec.js:282-283 | a test whose body throws `null` or `undefined` is recorded as a success |
| Settlement.TimeoutAfterPromise | ospec.js:162-164 | once a body has returned a promise, `o.timeout` throws and the delay stays |
| Settlement.TimeoutAfterSynchronousDone | ospec.js:162-164 | after a `done()` inside the body has run the next task, `o.timeout` throws |
| Runner.SettleRecords | ospec.js:274-300 | a plain return records nothing and every other settlement records exactly one result: a success for `done()`, a failure for an error or the timer. The result keeps the test's breadcrumbs and error |
| Runner.TaskRecords | ospec.js:318-344 | a user task's run adds one record per assertion, in order, and then its settlement's record unless it returned plainly. Every one of them carries the task's breadcrumbs joined with `" > "` and its definition-site error |
| Runner.CheckRecords | ospec.js:350-371 | one record per assertion, in the assertions' order |
| Runner.CheckRecord | ospec.js:350-371 | an incomplete assertion leaves its record as created, and a completed one passes exactly when its comparison returned. Context and `testError` are kept |
| Runner.StepSettles | ospec.js:256-346 | the settlement record the runner assigns to a behaviour is exactly what `Settlement.Step` pushes when the body does that: plain return, `done()`, `done(err)` or the timer, after an optional `o.timeout` |
| Runner.Runner.Run | ospec.js:180-195 | `o.run` starts with empty `results` and executes exactly `RunTrace`, the trace of the whole tree under the 200 ms default. The records are those the trace's tasks make, and the breadcrumbs end as they began |
| Runner.Runner.RunSpec | ospec.js:197-250 | `runSpec` with the composed chains and the spec's own delay executes the spec's trace. Its finalizer decides whether the breadcrumb stack is popped |
| Runner.Runner.Series | ospec.js:252-259 | the cursor loop executes each task's trace in order; the records are exactly those the executed tasks make |
| Runner.Runner.RunTask | ospec.js:256-346 | one `next()` executes the task's trace |
| Runner.Runner.RunWrapper | ospec.js:226-240 | a child wrapper pushes the child's name, runs the test's chain or the nested spec, and leaves the breadcrumbs as it found them |
| Runner.Runner.RunLeaf | ospec.js:232-235 | the test's chain runs in order, and its final `popSubjects` pops the child's name |
| Runner.Runner.RunPlain | ospec.js:269-272 | a hook runs under its own crumb `[[ o.name ]]` (with `depth - 1` asterisks), which it pops again afterwards. A user task adds its records |
| StackTrace.Header | ospec.js:147 | `name: message`, or just the name when the message is empty |
| StackTrace.Frames | ospec.js:149-154 | the frames of a stack: the lines after the header line when the stack starts with the header, else all its lines |
| StackTrace.CleanStackTrace | ospec.js:144-160 | no stack gives `""`. Without ospec's file name the result is the frames joined with `"\n"`. Otherwise it is `undefined` iff every frame mentions ospec's file, and else the first frame that does not |
| StackTrace.SplitLines | ospec.js:150 | `split(/\r?\n/)` yields at least one piece, and no piece contains a line feed |
| StackTrace.JoinSplitLines | ospec.js:153-155 | for a stack without `'\r'`, joining its lines with `"\n"` gives the stack back |
| StackTrace.SplitJoinLines | ospec.js:153 | lines without line breaks split back out of their joined text |
| StackTrace.HeaderDropped | ospec.js:147-151 | a stack that starts with `name: message` on its own line yields exactly the lines after it as frames |
| StackTrace.NoHeader | ospec.js:152-155 | a stack without the header and without `'\r'` joins back to itself |
| Spies.Spy.constructor | ospec.js:133-141 | a new spy has no calls, empty `args` and `callCount` 0. It has the wrapped function's `length` and `name`, or 0 and `"spy"` when nothing is wrapped |
| Spies.Spy.Invoke | ospec.js:125-132 | a call appends `{this, args}` to `calls`, increments `callCount`, and sets `args` and `this` to the latest call's. It ends as the wrapped function's call ends, returning its value or passing on what it threw, and returns `undefined` when nothing is wrapped. The call is recorded either way |
| Spies.TwoCalls | ospec.js:125-132 | two calls are recorded in order, and `args` and `callCount` reflect the second |
| Spies.ThrowingCall | ospec.js:125-132 | when the wrapped function throws, the spy throws the same value and the call is still recorded and counted |

## Left out

- Timers, `process.nextTick` and the 5000-step `fakeFastNextTick` counter: these are scheduling details. Timer expiry is a method call (`Step.TimerFires`), and `Math.min(delay, 2147483647)` is not modelled.
- Promises: a returned thenable is represented only by how it settles (`Settle.Resolved`/`Rejected`, or `Step.Done` called by the environment).
- Wall-clock time: `new Date`, the "# elapsed" warning (ospec.js:277) and the running time in the summary.
- Console output, colours, `process.exit` and `serialize`: `Results.Summary` is the summary text without colour, running time or the instance-name prefix.
- The textual inspection of `fn.toString()` that finds the name of `done` and throws "should be called at least once" (ospec.js:307-317): the name is a parameter (`arg`) of `Step`.
- Stack capture (`ensureStackTrace`, `getStackName`, `timeoutStackName`): `cleanStackTrace` works on a given stack string and a given ospec file name. The report's choice of which stack to print (ospec.js:487-489) is not modelled.
- `o.addExtension` and custom assertion prototypes (ospec.js:166-177), and the `Assert` save/restore in `runSpec` and `o.spec`, since a single assertion prototype is modelled.
- The assertion library (`equals`, `deepEquals`, `throws` and their negations): an assertion's comparison is given as a `Verdict`; `deepEqual` itself is modelled.
- `deepEqual` on `arguments` objects, `Date`, `Buffer`, `valueOf`, non-plain objects and extra own properties of arrays.
- DeepEqual.DeepEqual: objects are plain own keys, and `in` is modelled as an own-key test. In JavaScript it also finds `Object.prototype` members such as `toString`, `valueOf` and `hasOwnProperty`, so `deepEqual({}, {toString: 1})` is true while `deepEqual({toString: 1}, {})` is false. An own `constructor` key whose value is not `Object` makes `a.constructor === Object` fail (ospec.js:402), so such an object is not deep-equal to a copy of itself. `deepEqual(a, a)` still returns true, from `a === b` (ospec.js:398), before that test is reached. The lemmas about `deepEqual` hold only for objects whose keys avoid these names. Primitives are compared by value, and array/object identity is not modelled.
- Floating point, `NaN` and `Infinity` other than the wrappers' delay.
- The order of integer-like keys in `Object.keys`: keys keep insertion order.
- The module wrapper (ospec.js:2-5) and `o.new`.
- Definition.Suite.Define: `String(subject)` is not modelled; the subject is already a string.
- Runner.Runner.Run: requires a well-formed tree, in which no nested spec sits under a reserved key. `Definition.SoundTree` proves this for every suite whose specs were opened under unreserved names. `o.spec` does not reject reserved names, so a tree built with one is outside the model of `o.run`.
- Runner.Runner.Series: each task settles exactly once before the next begins. Late or repeated settlements are modelled separately in `Settlement.Step`, not inside the runner's trace; `Runner.StepSettles` links the two for a single settlement.
- Settlement.Step.Threw: an internal task's own error is reported as `Fail(e)` to the caller instead of unwinding the runner.
- Settlement.Step.FinalizeAsync: before the step has called `next()`, a settlement uses the task's own breadcrumbs and error. Code that changes `subjects` or `currentTestError` within that time is not modelled; such code is the nested series that a child wrapper runs.
- Definition.Suite.LeaveSpec: a builder that throws inside `o.spec` leaves `ctx` and `depth` in the child; the model has no method for that path.
- Spies.Spy.Invoke: later assignments by user code to `spy.calls`, `spy.args` or `spy.callCount` are not modelled.
