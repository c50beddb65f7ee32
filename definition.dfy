/**
 * Definition time: the tree of specs that `o()`, the hook registrars,
 * `o.specTimeout` and `o.spec` build, and the suite object that owns it.
 *
 * A spec is a JavaScript object used as an ordered dictionary: user
 * names map to tasks or nested specs, and the reserved keys that start
 * with the character U+0001 hold the four hook slots and the default
 * timeout. Keys keep their insertion order.
 */
module Definition {
  import opened Common
  import Values

  /** Identity of a test or hook function (`only` compares functions by identity). */
  type FnId = nat
  /** Identity of an Error object captured at a definition site. */
  type ErrId = nat

  /** What a task runs: a user function, or one of the runner's internal closures. */
  datatype Body =
    | UserFn(fn: FnId)
    | ChildWrapper(key: string)
    | PopSubjects
    | RestoreStack
    | Finalizer

  /**
   * `new Task(fn, err, hookName)`: `err` is the definition-site error, absent
   * for internal tasks; `depth` is the nesting depth at creation.
   */
  datatype Task = Task(body: Body, err: Option<ErrId>, hookName: Option<string>, depth: int)

  datatype Entry = TaskEntry(task: Task) | SpecEntry(spec: Spec) | TimeoutEntry(ms: int)

  datatype Spec = Spec(entries: seq<(string, Entry)>)

  datatype HookKind = Before | After | BeforeEach | AfterEach

  /** The hook's name as the breadcrumb and the error message print it (`name.slice(1)`). */
  function HookName(k: HookKind): string {
    match k
    case Before => "before"
    case After => "after"
    case BeforeEach => "beforeEach"
    case AfterEach => "afterEach"
  }

  const Soh: char := 1 as char

  /** The reserved key of a hook slot, such as "\x01beforeEach". */
  function SlotKey(k: HookKind): string {
    [Soh] + HookName(k)
  }

  /**
   * A hook slot is a reserved key that the loop over `Object.keys` skips,
   * it names its hook after the 0x01, and it is neither another kind's slot
   * nor the specTimeout key.
   */
  lemma SlotKeyReserved(k: HookKind, k': HookKind)
    ensures IsReserved(SlotKey(k)) && SlotKey(k)[1..] == HookName(k)
    ensures SlotKey(k) != TimeoutKey
    ensures SlotKey(k) == SlotKey(k') <==> k == k'
  {
    assert SlotKey(k)[1..] == HookName(k);
    assert |SlotKey(k)| < |TimeoutKey|;
    if k != k' {
      assert HookName(k) != HookName(k');
    }
  }

  const TimeoutKey: string := [Soh] + "specTimeout"

  /** `key.charCodeAt(0) === 1` */
  predicate IsReserved(key: string) {
    |key| > 0 && key[0] == Soh
  }

  function Keys(s: Spec): (ks: seq<string>)
    ensures |ks| == |s.entries|
    ensures forall i :: 0 <= i < |ks| ==> ks[i] == s.entries[i].0
  {
    seq(|s.entries|, i requires 0 <= i < |s.entries| => s.entries[i].0)
  }

  /** Position of the first entry with key `k`, or `|es|` when there is none. */
  function Find(es: seq<(string, Entry)>, k: string): (i: nat)
    ensures i <= |es|
    ensures i < |es| ==> es[i].0 == k
    ensures forall j :: 0 <= j < i ==> es[j].0 != k
  {
    if es == [] then 0
    else if es[0].0 == k then 0
    else 1 + Find(es[1..], k)
  }

  /** The three properties in `Find`'s contract determine its result. */
  lemma FindIs(es: seq<(string, Entry)>, k: string, i: nat)
    requires i <= |es|
    requires i < |es| ==> es[i].0 == k
    requires forall j :: 0 <= j < i ==> es[j].0 != k
    ensures Find(es, k) == i
  {
  }

  /** `hasOwn.call(ctx, k)` */
  predicate Has(s: Spec, k: string) {
    Find(s.entries, k) < |s.entries|
  }

  function Get(s: Spec, k: string): (r: Option<Entry>)
    ensures r.Some? <==> Has(s, k)
  {
    var i := Find(s.entries, k);
    if i < |s.entries| then Some(s.entries[i].1) else None
  }

  predicate UniqueKeys(s: Spec) {
    forall i, j :: 0 <= i < j < |s.entries| ==> s.entries[i].0 != s.entries[j].0
  }

  /**
   * `ctx[k] = e`: an existing own key keeps its position and takes the new
   * value; a new key is appended after all existing ones.
   */
  function Put(s: Spec, k: string, e: Entry): (r: Spec)
    ensures Get(r, k) == Some(e)
    ensures forall k' :: k' != k ==> Get(r, k') == Get(s, k')
    ensures Keys(r) == if Has(s, k) then Keys(s) else Keys(s) + [k]
    ensures UniqueKeys(s) ==> UniqueKeys(r)
  {
    var i := Find(s.entries, k);
    if i < |s.entries| then
      ReplaceKeepsOthers(s.entries, k, e, i);
      Spec(s.entries[i := (k, e)])
    else
      AppendKeepsOthers(s.entries, k, e);
      Spec(s.entries + [(k, e)])
  }

  /** Overwriting the entry of `k` in place moves no other key. */
  lemma ReplaceKeepsOthers(es: seq<(string, Entry)>, k: string, e: Entry, i: nat)
    requires i == Find(es, k) && i < |es|
    ensures Find(es[i := (k, e)], k) == i
    ensures forall k' :: k' != k ==> Find(es[i := (k, e)], k') == Find(es, k')
    ensures Keys(Spec(es[i := (k, e)])) == Keys(Spec(es))
    ensures UniqueKeys(Spec(es)) ==> UniqueKeys(Spec(es[i := (k, e)]))
  {
    var r := es[i := (k, e)];
    assert forall j :: 0 <= j < |es| ==> r[j].0 == es[j].0;
    FindIs(r, k, i);
    forall k' | k' != k ensures Find(r, k') == Find(es, k') {
      FindIs(r, k', Find(es, k'));
    }
  }

  /** Appending the entry of a new key `k` moves no other key. */
  lemma AppendKeepsOthers(es: seq<(string, Entry)>, k: string, e: Entry)
    requires Find(es, k) == |es|
    ensures Find(es + [(k, e)], k) == |es|
    ensures forall k' :: k' != k ==> Get(Spec(es + [(k, e)]), k') == Get(Spec(es), k')
    ensures Keys(Spec(es + [(k, e)])) == Keys(Spec(es)) + [k]
    ensures UniqueKeys(Spec(es)) ==> UniqueKeys(Spec(es + [(k, e)]))
  {
    var r := es + [(k, e)];
    assert forall j :: 0 <= j < |es| ==> r[j] == es[j];
    assert forall j :: 0 <= j < |es| ==> es[j].0 != k;
    FindIs(r, k, |es|);
    forall k' | k' != k ensures Get(Spec(r), k') == Get(Spec(es), k') {
      AppendKeepsOne(es, k, e, k');
    }
  }

  lemma AppendKeepsOne(es: seq<(string, Entry)>, k: string, e: Entry, k': string)
    requires k' != k
    ensures Get(Spec(es + [(k, e)]), k') == Get(Spec(es), k')
  {
    var r := es + [(k, e)];
    var j := Find(es, k');
    assert forall i :: 0 <= i < |es| ==> r[i] == es[i];
    if j < |es| {
      FindIs(r, k', j);
    } else {
      assert r[|es|].0 != k';
      FindIs(r, k', |r|);
    }
  }

  /** A task that is neither a child wrapper nor one of the runner's internal closures. */
  predicate IsUserTask(t: Task) {
    t.body.UserFn?
  }

  /** The shape the definition API gives a tree: distinct keys, slots hold user tasks. */
  predicate WellFormed(s: Spec)
    decreases s
  {
    && UniqueKeys(s)
    && (forall i :: 0 <= i < |s.entries| ==> EntryFits(s.entries[i].0, s.entries[i].1))
    && (forall i :: 0 <= i < |s.entries| && s.entries[i].1.SpecEntry? ==> WellFormed(s.entries[i].1.spec))
  }

  predicate EntryFits(key: string, e: Entry) {
    && (e.TaskEntry? ==> IsUserTask(e.task))
    && (e.TimeoutEntry? <==> key == TimeoutKey)
    && (e.SpecEntry? ==> !IsReserved(key))
  }

  /** Storing an entry that fits its key keeps a well-formed spec well formed. */
  lemma PutWellFormed(s: Spec, k: string, e: Entry)
    requires WellFormed(s) && EntryFits(k, e) && (e.SpecEntry? ==> WellFormed(e.spec))
    ensures WellFormed(Put(s, k, e))
  {
    var r := Put(s, k, e);
    var i := Find(s.entries, k);
    if i < |s.entries| {
      assert r.entries == s.entries[i := (k, e)];
    } else {
      assert r.entries == s.entries + [(k, e)];
    }
    forall j | 0 <= j < |r.entries|
      ensures EntryFits(r.entries[j].0, r.entries[j].1)
      ensures r.entries[j].1.SpecEntry? ==> WellFormed(r.entries[j].1.spec)
    {
      if j < |s.entries| && j != i {
        assert r.entries[j] == s.entries[j];
      }
    }
  }

  function MaxKeyLength(es: seq<(string, Entry)>): (n: nat)
    ensures forall i :: 0 <= i < |es| ==> |es[i].0| <= n
  {
    if es == [] then 0
    else
      var rest := MaxKeyLength(es[1..]);
      assert forall i :: 1 <= i < |es| ==> es[i] == es[1..][i - 1];
      if |es[0].0| > rest then |es[0].0| else rest
  }

  /** The name `unique(subject)` settles on in a spec whose own keys are those of `s`. */
  function FreeName(s: Spec, subject: string): string
    decreases MaxKeyLength(s.entries) + 1 - |subject|
  {
    if Has(s, subject) then
      assert |subject| <= MaxKeyLength(s.entries);
      FreeName(s, subject + "*")
    else subject
  }

  lemma {:induction false} FreeNameIsFree(s: Spec, subject: string)
    ensures !Has(s, FreeName(s, subject))
    decreases MaxKeyLength(s.entries) + 1 - |subject|
  {
    if Has(s, subject) {
      assert |subject| <= MaxKeyLength(s.entries);
      FreeNameIsFree(s, subject + "*");
    }
  }

  lemma {:induction false} FreeNameShape(s: Spec, subject: string)
    ensures |FreeName(s, subject)| >= |subject|
    ensures FreeName(s, subject) == subject + Stars(|FreeName(s, subject)| - |subject|)
    ensures Has(s, subject) ==> |FreeName(s, subject)| > |subject|
    decreases MaxKeyLength(s.entries) + 1 - |subject|
  {
    if Has(s, subject) {
      assert |subject| <= MaxKeyLength(s.entries);
      var t := subject + "*";
      FreeNameShape(s, t);
      var r := FreeName(s, t);
      var m := |r| - |t|;
      StarsShift(m);
      assert r == t + Stars(m);
      assert t + Stars(m) == subject + ("*" + Stars(m));
    } else {
      assert subject + Stars(0) == subject;
    }
  }

  /** Every shorter run of asterisks after `subject` names a key that is taken. */
  lemma {:induction false} FreeNameTaken(s: Spec, subject: string)
    ensures |FreeName(s, subject)| >= |subject|
    ensures forall n :: 0 <= n < |FreeName(s, subject)| - |subject| ==> Has(s, subject + Stars(n))
    decreases MaxKeyLength(s.entries) + 1 - |subject|
  {
    if Has(s, subject) {
      assert |subject| <= MaxKeyLength(s.entries);
      var t := subject + "*";
      FreeNameTaken(s, t);
      assert FreeName(s, subject) == FreeName(s, t);
      forall n | 0 <= n < |FreeName(s, subject)| - |subject| ensures Has(s, subject + Stars(n)) {
        if n == 0 {
          assert subject + Stars(0) == subject;
        } else {
          StarsShift(n - 1);
          assert subject + Stars(n) == t + Stars(n - 1);
        }
      }
    }
  }

  /**
   * `unique(subject)` returns a name that is not an own key: `subject` itself
   * exactly when it is free, otherwise `subject` followed by the fewest
   * asterisks that make it free.
   */
  lemma FreeNameSpec(s: Spec, subject: string)
    ensures !Has(s, FreeName(s, subject))
    ensures exists n: nat ::
      && FreeName(s, subject) == subject + Stars(n)
      && forall m :: 0 <= m < n ==> Has(s, subject + Stars(m))
    ensures !Has(s, subject) <==> FreeName(s, subject) == subject
  {
    FreeNameIsFree(s, subject);
    FreeNameShape(s, subject);
    FreeNameTaken(s, subject);
    var n := |FreeName(s, subject)| - |subject|;
    assert FreeName(s, subject) == subject + Stars(n);
  }

  lemma StarsShift(n: nat)
    ensures Stars(n + 1) == "*" + Stars(n)
  {
    if n > 0 {
      StarsShift(n - 1);
    }
  }

  /** The errors the definition API throws. */
  datatype DefError =
    | ReservedName
    | NestedDefinition
    | DuplicateHook(kind: HookKind)
    | TimeoutWhileRunning
    | DuplicateTimeout
    | TimeoutNotANumber
    | AssertionOutsideTest

  function Message(e: DefError): string {
    match e
    case ReservedName => "test names starting with '\\x01' are reserved for internal use."
    case NestedDefinition => "Test definitions and hooks shouldn't be nested. To group tests, use 'o.spec()'."
    case DuplicateHook(k) => HookName(k) + " should be defined outside of a loop or inside a nested test group."
    case TimeoutWhileRunning => "o.specTimeout() can only be called before o.run()."
    case DuplicateTimeout => "A default timeout has already been defined in this context."
    case TimeoutNotANumber => "o.specTimeout() expects a number as argument."
    case AssertionOutsideTest => "Assertions should not occur outside test definitions."
  }

  /** One open spec object: the key it lives under in its parent, and its entries so far. */
  datatype Frame = Frame(key: string, spec: Spec)

  /**
   * The whole tree as the root object sees it: each open spec is stored,
   * with its current entries, under its key in the spec below it.
   */
  function Close(fs: seq<Frame>): Spec
    requires |fs| >= 1
    decreases |fs|
  {
    if |fs| == 1 then fs[0].spec else Close(Fold(fs))
  }

  /** Store the innermost open spec under its key in its parent and drop it from the stack. */
  function Fold(fs: seq<Frame>): (r: seq<Frame>)
    requires |fs| >= 2
    ensures |r| == |fs| - 1
  {
    var n := |fs|;
    fs[..n - 2] + [Frame(fs[n - 2].key, Put(fs[n - 2].spec, fs[n - 1].key, SpecEntry(fs[n - 1].spec)))]
  }

  /** `ctx[k] = e`: the stack with `e` stored under `k` in its innermost open spec. */
  function Store(fs: seq<Frame>, k: string, e: Entry): (r: seq<Frame>)
    requires |fs| >= 1
    ensures |r| == |fs|
  {
    fs[..|fs| - 1] + [Frame(fs[|fs| - 1].key, Put(fs[|fs| - 1].spec, k, e))]
  }

  /** A fresh empty spec stored under `k` in the innermost open spec, which it then follows on the stack. */
  function Open(fs: seq<Frame>, k: string): (r: seq<Frame>)
    requires |fs| >= 1
    ensures |r| == |fs| + 1
  {
    Store(fs, k, SpecEntry(Spec([]))) + [Frame(k, Spec([]))]
  }

  /**
   * A stack of open specs whose objects are all well formed and whose
   * nested specs all sit under unreserved keys.
   */
  ghost predicate FramesSound(fs: seq<Frame>) {
    && (forall i :: 0 <= i < |fs| ==> WellFormed(fs[i].spec))
    && (forall i :: 1 <= i < |fs| ==> !IsReserved(fs[i].key))
  }

  /** Folding the innermost open spec into its parent keeps every spec's keys distinct. */
  lemma FoldUnique(fs: seq<Frame>)
    requires |fs| >= 2 && FramesUnique(fs)
    ensures FramesUnique(Fold(fs))
  {
    var r := Fold(fs);
    assert forall i :: 0 <= i < |fs| - 2 ==> r[i] == fs[i];
  }

  /** Folding the innermost open spec of a sound stack into its parent keeps the stack sound. */
  lemma FoldSound(fs: seq<Frame>)
    requires |fs| >= 2 && FramesSound(fs)
    ensures FramesSound(Fold(fs))
  {
    var n := |fs|;
    assert IsReserved(TimeoutKey);
    PutWellFormed(fs[n - 2].spec, fs[n - 1].key, SpecEntry(fs[n - 1].spec));
    var r := Fold(fs);
    assert forall i :: 0 <= i < n - 2 ==> r[i] == fs[i];
  }

  /** Closing a sound stack of open specs gives a well-formed tree. */
  lemma {:induction false} CloseWellFormed(fs: seq<Frame>)
    requires |fs| >= 1 && FramesSound(fs)
    ensures WellFormed(Close(fs))
    decreases |fs|
  {
    if |fs| > 1 {
      FoldSound(fs);
      CloseWellFormed(Fold(fs));
    }
  }

  /** Replacing the innermost open spec by a well-formed one keeps the stack sound. */
  lemma ReplaceLastSound(fs: seq<Frame>, s: Spec)
    requires |fs| >= 1 && FramesSound(fs) && WellFormed(s)
    ensures FramesSound(fs[..|fs| - 1] + [Frame(fs[|fs| - 1].key, s)])
  {
    var r := fs[..|fs| - 1] + [Frame(fs[|fs| - 1].key, s)];
    assert forall i :: 0 <= i < |fs| - 1 ==> r[i] == fs[i];
  }

  /** Storing a fitting entry in the innermost open spec keeps the stack sound. */
  lemma StoreSound(fs: seq<Frame>, k: string, e: Entry)
    requires |fs| >= 1
    requires EntryFits(k, e) && (e.SpecEntry? ==> WellFormed(e.spec))
    ensures FramesSound(fs) ==> FramesSound(Store(fs, k, e))
  {
    if FramesSound(fs) {
      PutWellFormed(fs[|fs| - 1].spec, k, e);
      ReplaceLastSound(fs, Put(fs[|fs| - 1].spec, k, e));
    }
  }

  /** Every open spec of the stack has distinct keys. */
  predicate FramesUnique(fs: seq<Frame>) {
    forall i :: 0 <= i < |fs| ==> UniqueKeys(fs[i].spec)
  }

  /** Storing an entry in the innermost open spec keeps every spec's keys distinct. */
  lemma StoreUnique(fs: seq<Frame>, k: string, e: Entry)
    requires |fs| >= 1 && FramesUnique(fs)
    ensures FramesUnique(Store(fs, k, e))
  {
    var r := Store(fs, k, e);
    assert forall i :: 0 <= i < |fs| - 1 ==> r[i] == fs[i];
  }

  /** Opening a fresh spec keeps every spec's keys distinct. */
  lemma OpenUnique(fs: seq<Frame>, k: string)
    requires |fs| >= 1 && FramesUnique(fs)
    ensures FramesUnique(Open(fs, k))
  {
    StoreUnique(fs, k, SpecEntry(Spec([])));
    var gs := Store(fs, k, SpecEntry(Spec([])));
    assert forall i :: 0 <= i < |gs| ==> Open(fs, k)[i] == gs[i];
  }

  /** Opening a fresh spec under an unreserved name keeps the stack sound. */
  lemma OpenSound(fs: seq<Frame>, k: string)
    requires |fs| >= 1
    ensures FramesSound(fs) && !IsReserved(k) ==> FramesSound(Open(fs, k))
  {
    if FramesSound(fs) && !IsReserved(k) {
      UnreservedFits(k, SpecEntry(Spec([])));
      StoreSound(fs, k, SpecEntry(Spec([])));
      var gs := Store(fs, k, SpecEntry(Spec([])));
      assert forall i :: 0 <= i < |gs| ==> Open(fs, k)[i] == gs[i];
    }
  }

  /** A user task or a nested spec fits any unreserved key. */
  lemma UnreservedFits(k: string, e: Entry)
    requires !IsReserved(k) && !e.TimeoutEntry? && (e.TaskEntry? ==> IsUserTask(e.task))
    ensures EntryFits(k, e)
  {
    assert IsReserved(TimeoutKey);
  }

  /** A user task fits a hook slot. */
  lemma SlotFits(kind: HookKind, e: Entry)
    requires e.TaskEntry? && IsUserTask(e.task)
    ensures EntryFits(SlotKey(kind), e)
  {
    assert |SlotKey(kind)| < |TimeoutKey|;
  }

  /** `unique` never turns an unreserved name into a reserved one. */
  lemma FreeNameUnreserved(s: Spec, subject: string)
    ensures !IsReserved(subject) ==> !IsReserved(FreeName(s, subject))
  {
    if IsReserved(subject) {
      return;
    }
    FreeNameShape(s, subject);
    var n := |FreeName(s, subject)| - |subject|;
    if subject == [] && n > 0 {
      StarsShift(n - 1);
      assert FreeName(s, subject) == "*" + Stars(n - 1);
    }
  }

  /**
   * The definition-time state of one `o` instance: the stack of open spec
   * objects standing for the global `ctx` (its last frame is `ctx`, its
   * first the root `spec`), `depth`, the `only` list, whether a run has
   * started (`results != null`), and a counter for fresh definition-site
   * errors.
   */
  class Suite {
    var frames: seq<Frame>
    var depth: int
    var only: seq<FnId>
    var running: bool
    var nextErr: ErrId
    const base: nat

    ghost predicate Valid()
      reads this
    {
      && 1 <= base <= |frames|
      && depth == |frames| - base + 1
      && FramesUnique(frames)
    }

    /**
     * Every open spec is well formed and no nested spec sits under a reserved
     * key, so the tree is one `o.run` can traverse.
     */
    ghost predicate Sound()
      reads this
    {
      FramesSound(frames)
    }

    /** `ctx` */
    function Ctx(): Spec
      reads this
      requires Valid()
    {
      frames[|frames| - 1].spec
    }

    /** The root spec that `o.run` traverses. */
    function Tree(): Spec
      reads this
      requires Valid()
    {
      Close(frames)
    }

    /** `init(name)`: with a name, all definitions go into a spec stored under it. */
    constructor (name: Option<string>)
      ensures Valid() && depth == 1 && only == [] && !running && nextErr == 0
      ensures name.None? || !IsReserved(name.value) ==> Sound()
      ensures name.None? ==> base == 1 && frames == [Frame("", Spec([]))]
      ensures name.Some? ==>
        && base == 2
        && frames == [Frame("", Spec([(name.value, SpecEntry(Spec([])))])), Frame(name.value, Spec([]))]
    {
      if name.Some? {
        frames := [Frame("", Spec([(name.value, SpecEntry(Spec([])))])), Frame(name.value, Spec([]))];
        base := 2;
      } else {
        frames := [Frame("", Spec([]))];
        base := 1;
      }
      depth := 1;
      only := [];
      running := false;
      nextErr := 0;
    }

    /** `unique(subject)`: append `*` until the name is not an own key of `ctx`. */
    method Unique(subject: string) returns (r: string, warned: bool)
      requires Valid()
      ensures r == FreeName(Ctx(), subject)
      ensures warned <==> Has(Ctx(), subject)
    {
      var s := Ctx();
      r := subject;
      warned := Has(s, r);
      if warned {
        while Has(s, r)
          invariant FreeName(s, r) == FreeName(s, subject)
          decreases MaxKeyLength(s.entries) + 1 - |r|
        {
          r := r + "*";
        }
      }
    }

    /** `new Task(fn, err, hookName)` for a user function, with a fresh definition-site error. */
    function UserTask(fn: FnId, hookName: Option<string>): (t: Task)
      reads this
      ensures IsUserTask(t) && t.body == UserFn(fn)
      ensures t.hookName == hookName && t.depth == depth
    {
      Task(UserFn(fn), Some(nextErr), hookName, depth)
    }

    /** `ctx[key] = entry`, for an entry that fits its key. */
    method StoreInCtx(key: string, entry: Entry)
      requires Valid() && EntryFits(key, entry) && !entry.SpecEntry?
      modifies this
      ensures Valid()
      ensures frames == Store(old(frames), key, entry)
      ensures depth == old(depth) && only == old(only) && running == old(running) && nextErr == old(nextErr)
      ensures old(Sound()) ==> Sound()
    {
      StoreSound(frames, key, entry);
      StoreUnique(frames, key, entry);
      frames := Store(frames, key, entry);
    }

    /** `o(subject, fn)`: define a test in `ctx`. */
    method Define(subject: string, fn: FnId) returns (r: Outcome<DefError>)
      requires Valid()
      modifies this
      ensures Valid()
      ensures r == if IsReserved(subject) then Fail(ReservedName)
                   else if running then Fail(NestedDefinition)
                   else Pass
      ensures r.Pass? ==> frames == Store(old(frames), old(FreeName(Ctx(), subject)), old(TaskEntry(UserTask(fn, None))))
      ensures r.Pass? ==> nextErr == old(nextErr) + 1
      ensures r.Fail? ==> frames == old(frames) && nextErr == old(nextErr)
      ensures depth == old(depth) && only == old(only) && running == old(running)
      ensures old(Sound()) ==> Sound()
    {
      if IsReserved(subject) {
        return Fail(ReservedName);
      }
      var key, _ := Unique(subject);
      if running {
        return Fail(NestedDefinition);
      }
      var entry := TaskEntry(UserTask(fn, None));
      FreeNameUnreserved(Ctx(), subject);
      UnreservedFits(key, entry);
      StoreInCtx(key, entry);
      nextErr := nextErr + 1;
      r := Pass;
    }

    /** `o.before`, `o.after`, `o.beforeEach`, `o.afterEach`: fill one hook slot of `ctx`. */
    method Hook(kind: HookKind, fn: FnId) returns (r: Outcome<DefError>)
      requires Valid()
      modifies this
      ensures Valid()
      ensures r == if Has(old(Ctx()), SlotKey(kind)) then Fail(DuplicateHook(kind))
                   else if running then Fail(NestedDefinition)
                   else Pass
      ensures r.Pass? ==> frames == Store(old(frames), SlotKey(kind), old(TaskEntry(UserTask(fn, Some(HookName(kind))))))
      ensures r.Pass? ==> nextErr == old(nextErr) + 1
      ensures r.Fail? ==> frames == old(frames) && nextErr == old(nextErr)
      ensures depth == old(depth) && only == old(only) && running == old(running)
      ensures old(Sound()) ==> Sound()
    {
      if Has(Ctx(), SlotKey(kind)) {
        return Fail(DuplicateHook(kind));
      }
      if running {
        return Fail(NestedDefinition);
      }
      var entry := TaskEntry(UserTask(fn, Some(HookName(kind))));
      SlotFits(kind, entry);
      StoreInCtx(SlotKey(kind), entry);
      nextErr := nextErr + 1;
      r := Pass;
    }

    /** `o.specTimeout(t)`: store a default delay for the tasks of `ctx`. */
    method SpecTimeout(t: Values.Value) returns (r: Outcome<DefError>)
      requires Valid()
      modifies this
      ensures Valid()
      ensures r == if running then Fail(TimeoutWhileRunning)
                   else if Has(old(Ctx()), TimeoutKey) then Fail(DuplicateTimeout)
                   else if !t.Num? then Fail(TimeoutNotANumber)
                   else Pass
      ensures r.Pass? ==> frames == Store(old(frames), TimeoutKey, TimeoutEntry(t.n))
      ensures r.Fail? ==> frames == old(frames)
      ensures depth == old(depth) && only == old(only) && running == old(running) && nextErr == old(nextErr)
      ensures old(Sound()) ==> Sound()
    {
      if running {
        return Fail(TimeoutWhileRunning);
      }
      if Has(Ctx(), TimeoutKey) {
        return Fail(DuplicateTimeout);
      }
      if !t.Num? {
        return Fail(TimeoutNotANumber);
      }
      StoreInCtx(TimeoutKey, TimeoutEntry(t.n));
      r := Pass;
    }

    /**
     * The part of `o.spec(subject, builder)` before the builder runs: a fresh
     * empty spec is stored under `unique(subject)` and becomes `ctx`.
     */
    method EnterSpec(subject: string)
      requires Valid()
      modifies this
      ensures Valid()
      ensures frames == Open(old(frames), old(FreeName(Ctx(), subject)))
      ensures depth == old(depth) + 1
      ensures only == old(only) && running == old(running) && nextErr == old(nextErr)
      ensures old(Sound()) && !IsReserved(subject) ==> Sound()
    {
      var key, _ := Unique(subject);
      FreeNameUnreserved(Ctx(), subject);
      OpenSound(frames, key);
      OpenUnique(frames, key);
      frames := Open(frames, key);
      depth := depth + 1;
    }

    /**
     * The part of `o.spec` after the builder has returned: the parent becomes
     * `ctx` again. The tree seen from the root does not change, since the
     * parent already holds the child under its key. When the builder throws,
     * this part never runs and `ctx` and `depth` stay in the child.
     */
    method LeaveSpec()
      requires Valid() && |frames| > base
      modifies this
      ensures Valid()
      ensures frames == Fold(old(frames))
      ensures Tree() == old(Tree())
      ensures depth == old(depth) - 1
      ensures only == old(only) && running == old(running) && nextErr == old(nextErr)
      ensures old(Sound()) ==> Sound()
    {
      if FramesSound(frames) {
        FoldSound(frames);
      }
      FoldUnique(frames);
      frames := Fold(frames);
      depth := depth - 1;
    }

    /** `o.only(subject, fn)`: flag `fn` to run, then define it like `o()`. */
    method Only(subject: string, fn: FnId) returns (r: Outcome<DefError>)
      requires Valid()
      modifies this
      ensures Valid()
      ensures only == old(only) + [fn]
      ensures r == if IsReserved(subject) then Fail(ReservedName)
                   else if running then Fail(NestedDefinition)
                   else Pass
      ensures r.Pass? ==> frames == Store(old(frames), old(FreeName(Ctx(), subject)), old(TaskEntry(UserTask(fn, None))))
      ensures r.Pass? ==> nextErr == old(nextErr) + 1
      ensures r.Fail? ==> frames == old(frames) && nextErr == old(nextErr)
      ensures depth == old(depth) && running == old(running)
      ensures old(Sound()) ==> Sound()
    {
      ghost var key := FreeName(Ctx(), subject);
      ghost var entry := TaskEntry(UserTask(fn, None));
      ghost var before := frames;
      only := only + [fn];
      assert key == FreeName(Ctx(), subject) && entry == TaskEntry(UserTask(fn, None));
      assert before == frames;
      r := Define(subject, fn);
    }

    /** `o.run` sets `results`, after which `isRunning()` holds. */
    method BeginRun()
      requires Valid()
      modifies this
      ensures Valid() && running && (old(Sound()) ==> Sound())
      ensures frames == old(frames) && depth == old(depth) && only == old(only) && nextErr == old(nextErr)
    {
      running := true;
    }

    /** `o(value)` without a test function: an assertion, which needs a run in progress. */
    method Assertion() returns (r: Outcome<DefError>)
      requires Valid()
      ensures r == if running then Pass else Fail(AssertionOutsideTest)
    {
      r := if IsRunning() then Pass else Fail(AssertionOutsideTest);
    }

    /** `isRunning()` */
    function IsRunning(): bool
      reads this
    {
      running
    }
  }

  /** The text a repeated hook throws names the hook. */
  lemma DuplicateHookText(kind: HookKind)
    ensures Message(DuplicateHook(kind)) == HookName(kind) + " should be defined outside of a loop or inside a nested test group."
  {
  }

  /**
   * Defining the same hook twice in one spec: the second call throws and the
   * first hook stays in its slot.
   */
  method SecondHookRejected(kind: HookKind, first: FnId, second: FnId)
    returns (r1: Outcome<DefError>, r2: Outcome<DefError>, slot: Option<Entry>)
    ensures r1 == Pass && r2 == Fail(DuplicateHook(kind))
    ensures Message(r2.error) == HookName(kind) + " should be defined outside of a loop or inside a nested test group."
    ensures slot == Some(TaskEntry(Task(UserFn(first), Some(0), Some(HookName(kind)), 1)))
  {
    DuplicateHookText(kind);
    var suite := new Suite(None);
    ghost var task := Task(UserFn(first), Some(0), Some(HookName(kind)), 1);
    r1 := suite.Hook(kind, first);
    assert suite.Ctx() == Put(Spec([]), SlotKey(kind), TaskEntry(task));
    ghost var ctx := suite.Ctx();
    assert Get(ctx, SlotKey(kind)) == Some(TaskEntry(task));
    ghost var frames := suite.frames;
    r2 := suite.Hook(kind, second);
    assert suite.frames == frames;
    assert suite.Ctx() == ctx;
    slot := Get(suite.Ctx(), SlotKey(kind));
    assert slot == Some(TaskEntry(task));
  }

  /**
   * The tree of a suite whose open specs were all entered under unreserved
   * names is well formed: the definition API leaves it in the shape the
   * runner traverses.
   */
  lemma SoundTree(suite: Suite)
    requires suite.Valid() && suite.Sound()
    ensures WellFormed(suite.Tree())
  {
    CloseWellFormed(suite.frames);
  }
}
