/**
 * A group that runs at most a fixed number of tasks at a time. Every task in a slot has a promise, the
 * channel its caller waits on; a cancel empties the slots at once, and their tasks end later on their own.
 */
module TaskGroup {

  import opened Common

  type Promise = nat
  type Context = nat

  /** What a started task remembers: its slot and the context it runs in. */
  datatype Task = Task(slot: nat, ctx: Context)

  /**
   * `exec` is the counter each call of Do shares with its tasks, `failed` how many starts were refused to
   * it. `running` holds the started tasks that have not ended, also the cancelled ones.
   */
  datatype State = State(
    slots: seq<Option<Promise>>,
    cancel: Option<set<Context>>,
    exec: map<Context, int>,
    failed: map<Context, nat>,
    cancelled: set<Context>,
    running: map<Promise, Task>,
    nextPromise: nat,
    nextContext: nat
  )

  // ---------------------------------------------------------------------------------------------
  // Slots
  // ---------------------------------------------------------------------------------------------

  /** The promises of the occupied slots, in slot order. */
  function Promises(slots: seq<Option<Promise>>): (ps: seq<Promise>)
    ensures |ps| <= |slots|
  {
    if slots == [] then []
    else
      var last := slots[|slots| - 1];
      Promises(slots[..|slots| - 1]) + if last.Some? then [last.value] else []
  }

  function Occupied(slots: seq<Option<Promise>>): nat { |Promises(slots)| }

  lemma {:induction false} PromisesOf(slots: seq<Option<Promise>>, p: Promise)
    ensures p in Promises(slots) <==> Some(p) in slots
    decreases |slots|
  {
    if slots != [] {
      var n := |slots| - 1;
      PromisesOf(slots[..n], p);
      assert slots == slots[..n] + [slots[n]];
    }
  }

  lemma {:induction false} PromisesGrow(slots: seq<Option<Promise>>, i: nat)
    requires i <= |slots|
    ensures Promises(slots[..i]) <= Promises(slots)
    decreases |slots|
  {
    if i == |slots| {
      assert slots[..i] == slots;
    } else {
      var n := |slots| - 1;
      assert slots[..n][..i] == slots[..i];
      PromisesGrow(slots[..n], i);
    }
  }

  lemma PromisesNext(slots: seq<Option<Promise>>, i: nat)
    requires i <= |slots|
    ensures i == 0 ==> Promises(slots[..i]) == []
    ensures i < |slots| ==>
      Promises(slots[..i + 1]) == Promises(slots[..i]) + if slots[i].Some? then [slots[i].value] else []
  {
    assert i < |slots| ==> slots[..i + 1][..i] == slots[..i];
  }

  /** Writing a slot changes how many are occupied by that slot only. */
  lemma {:induction false} OccupiedAfterWrite(slots: seq<Option<Promise>>, j: nat, x: Option<Promise>)
    requires j < |slots|
    ensures Occupied(slots[j := x])
         == Occupied(slots) + (if x.Some? then 1 else 0) - (if slots[j].Some? then 1 else 0)
    decreases |slots|
  {
    var n := |slots| - 1;
    if j == n {
      assert slots[j := x][..n] == slots[..n];
    } else {
      assert slots[j := x][..n] == slots[..n][j := x];
      OccupiedAfterWrite(slots[..n], j, x);
    }
  }

  lemma {:induction false} FullWhenAllTaken(slots: seq<Option<Promise>>)
    ensures Occupied(slots) == |slots| <==> None !in slots
    ensures Occupied(slots) == 0 <==> forall j :: 0 <= j < |slots| ==> slots[j] == None
    decreases |slots|
  {
    if slots != [] {
      var n := |slots| - 1;
      FullWhenAllTaken(slots[..n]);
      assert slots == slots[..n] + [slots[n]];
    }
  }

  predicate DistinctSlots(slots: seq<Option<Promise>>) {
    forall i, j :: 0 <= i < j < |slots| && slots[i].Some? ==> slots[i] != slots[j]
  }

  predicate Distinct(ps: seq<Promise>) {
    forall i, j :: 0 <= i < j < |ps| ==> ps[i] != ps[j]
  }

  lemma {:induction false} PromisesDistinct(slots: seq<Option<Promise>>)
    requires DistinctSlots(slots)
    ensures Distinct(Promises(slots))
    decreases |slots|
  {
    if slots != [] {
      var n := |slots| - 1;
      PromisesDistinct(slots[..n]);
      if slots[n].Some? {
        PromisesOf(slots[..n], slots[n].value);
      }
    }
  }

  /** The first free slot, or the number of slots. */
  function FirstFree(slots: seq<Option<Promise>>): (j: nat)
    ensures j <= |slots|
    ensures j < |slots| ==> slots[j] == None
    ensures forall i :: 0 <= i < j ==> slots[i].Some?
  {
    if slots == [] || slots[0] == None then 0 else 1 + FirstFree(slots[1..])
  }

  // ---------------------------------------------------------------------------------------------
  // The group as a function of its events
  // ---------------------------------------------------------------------------------------------

  function Start(slots: nat): State {
    State(seq(slots, i => None), None, map[], map[], {}, map[], 0, 0)
  }

  function Chain(cancel: Option<set<Context>>): set<Context> {
    if cancel.Some? then cancel.value else {}
  }

  /** A call that has something to start makes a context and hangs it on the group's cancel. */
  function Prepared(s: State, exec: int): State {
    s.(cancel := Some(Chain(s.cancel) + {s.nextContext}),
       exec := s.exec[s.nextContext := exec],
       failed := s.failed[s.nextContext := 0],
       nextContext := s.nextContext + 1)
  }

  /** One start: a refused one leaves the slot free and fulfils its own promise. */
  function StartOne(s: State, c: Context, ok: bool): State {
    var j := FirstFree(s.slots);
    if ok && j < |s.slots| then
      s.(slots := s.slots[j := Some(s.nextPromise)], running := s.running[s.nextPromise := Task(j, c)],
         nextPromise := s.nextPromise + 1)
    else
      s.(failed := s.failed[c := (if c in s.failed then s.failed[c] else 0) + 1], nextPromise := s.nextPromise + 1)
  }

  function StartAll(s: State, c: Context, k: nat, refused: set<nat>): State {
    if k == 0 then s else StartOne(StartAll(s, c, k - 1, refused), c, k - 1 !in refused)
  }

  function Wanted(s: State, n: nat): int { Min(n, |s.slots|) - Occupied(s.slots) }

  /** The Goer refuses the starts numbered in `refused`. */
  function AfterDo(s: State, n: nat, refused: set<nat>): State {
    var exec := Wanted(s, n);
    if exec > 0 then StartAll(Prepared(s, exec), s.nextContext, exec, refused) else s
  }

  function Returned(s: State, n: nat): seq<Promise> {
    var ps := Promises(s.slots);
    ps[..Min(Min(n, |s.slots|), |ps|)]
  }

  function AfterEnd(s: State, p: Promise): State
    requires p in s.running && s.running[p].ctx in s.exec && s.running[p].slot < |s.slots|
  {
    var t := s.running[p];
    var exec := s.exec[t.ctx] - 1;
    var s1 := s.(running := s.running - {p}, exec := s.exec[t.ctx := exec],
                 cancelled := if exec == 0 then s.cancelled + {t.ctx} else s.cancelled);
    if s.slots[t.slot] == Some(p) then
      var slots := s.slots[t.slot := None];
      s1.(slots := slots, cancel := if Occupied(slots) == 0 then None else s.cancel)
    else s1
  }

  function AfterCancel(s: State): State {
    s.(slots := seq(|s.slots|, i => None), cancel := None, cancelled := s.cancelled + Chain(s.cancel))
  }

  // ---------------------------------------------------------------------------------------------
  // What every step keeps
  // ---------------------------------------------------------------------------------------------

  function Of(running: map<Promise, Task>, c: Context): set<Promise> {
    set p | p in running && running[p].ctx == c
  }

  /** A slot holds the promise of a running task that knows the slot; its context can still be cancelled. */
  ghost predicate SlotsRun(s: State) {
    forall j :: 0 <= j < |s.slots| && s.slots[j].Some? ==>
      var p := s.slots[j].value;
      && p in s.running && s.running[p].slot == j
      && s.running[p].ctx !in s.cancelled && s.running[p].ctx in Chain(s.cancel)
  }

  ghost predicate Known(s: State) {
    && (forall p: Promise :: p in s.running ==>
          p < s.nextPromise && s.running[p].slot < |s.slots| && s.running[p].ctx < s.nextContext)
    && (forall c: Context :: c in s.exec <==> c < s.nextContext)
    && (forall c: Context :: c in s.failed <==> c < s.nextContext)
    && (forall c: Context :: c in Chain(s.cancel) ==> c < s.nextContext)
    && (forall c: Context :: c in s.cancelled ==> c < s.nextContext)
  }

  /** Each counter is its context's running tasks and refused starts, and for `c` the starts still owed. */
  ghost predicate Accounted(s: State, c: Context, owed: int)
    requires Known(s)
  {
    forall x :: x in s.exec ==> s.exec[x] == |Of(s.running, x)| + s.failed[x] + if x == c then owed else 0
  }

  ghost predicate Good(s: State) {
    && |s.slots| >= 1
    && SlotsRun(s)
    && Known(s)
    && Accounted(s, 0, 0)
  }

  lemma StartGood(n: nat)
    requires n >= 1
    ensures Good(Start(n))
  {
    assert forall j :: 0 <= j < n ==> Start(n).slots[j] == None;
  }

  lemma PreparedKeeps(s: State, exec: int)
    requires Good(s)
    ensures var s' := Prepared(s, exec);
      SlotsRun(s') && Known(s') && Accounted(s', s.nextContext, exec)
  {
    assert Of(s.running, s.nextContext) == {};
  }

  lemma OfAfterStart(running: map<Promise, Task>, p: Promise, t: Task, c: Context)
    requires p !in running
    ensures |Of(running[p := t], c)| == |Of(running, c)| + if c == t.ctx then 1 else 0
  {
    assert Of(running[p := t], c) == Of(running, c) + if c == t.ctx then {p} else {};
  }

  lemma OfAfterEnd(running: map<Promise, Task>, p: Promise, c: Context)
    requires p in running
    ensures |Of(running - {p}, c)| == |Of(running, c)| - if c == running[p].ctx then 1 else 0
  {
    assert Of(running, c) == Of(running - {p}, c) + if c == running[p].ctx then {p} else {};
  }

  lemma StartOneKeeps(s: State, c: Context, ok: bool, owed: int)
    requires SlotsRun(s) && Known(s) && Accounted(s, c, owed)
    requires c < s.nextContext && c in Chain(s.cancel) && c !in s.cancelled
    ensures var s' := StartOne(s, c, ok);
      && SlotsRun(s') && Known(s') && Accounted(s', c, owed - 1)
      && s'.cancel == s.cancel && s'.cancelled == s.cancelled && s'.nextContext == s.nextContext
      && |s'.slots| == |s.slots|
  {
    var s' := StartOne(s, c, ok);
    forall x | x in s.exec
      ensures |Of(s'.running, x)| + s'.failed[x] == |Of(s.running, x)| + s.failed[x] + if x == c then 1 else 0
    {
      OfAfterStart(s.running, s.nextPromise, Task(FirstFree(s.slots), c), x);
    }
  }

  /** A start that is accepted while a slot is free fills exactly one. */
  lemma StartOneFills(s: State, c: Context, ok: bool)
    requires Occupied(s.slots) < |s.slots|
    ensures FirstFree(s.slots) < |s.slots|
    ensures Occupied(StartOne(s, c, ok).slots) == Occupied(s.slots) + if ok then 1 else 0
  {
    FullWhenAllTaken(s.slots);
    var j := FirstFree(s.slots);
    if j < |s.slots| {
      OccupiedAfterWrite(s.slots, j, Some(s.nextPromise));
    }
  }

  lemma {:induction false} StartAllKeeps(s: State, c: Context, k: nat, refused: set<nat>, owed: int)
    requires SlotsRun(s) && Known(s) && Accounted(s, c, owed)
    requires c < s.nextContext && c in Chain(s.cancel) && c !in s.cancelled
    ensures var s' := StartAll(s, c, k, refused);
      && SlotsRun(s') && Known(s') && Accounted(s', c, owed - k) && |s'.slots| == |s.slots|
      && s'.cancel == s.cancel && s'.cancelled == s.cancelled && s'.nextContext == s.nextContext
  {
    hide SlotsRun, Accounted, Known, StartOne;
    if k > 0 {
      StartAllKeeps(s, c, k - 1, refused, owed);
      StartOneKeeps(StartAll(s, c, k - 1, refused), c, k - 1 !in refused, owed - (k - 1));
    }
  }

  /** How many of the first `k` starts are accepted. */
  function Accepted(k: nat, refused: set<nat>): (a: nat)
    ensures a <= k
    ensures (forall i :: 0 <= i < k ==> i !in refused) ==> a == k
  {
    if k == 0 then 0 else Accepted(k - 1, refused) + if k - 1 in refused then 0 else 1
  }

  lemma {:induction false} StartAllFills(s: State, c: Context, k: nat, refused: set<nat>)
    requires Occupied(s.slots) + k <= |s.slots|
    ensures var s' := StartAll(s, c, k, refused);
      && |s'.slots| == |s.slots|
      && Occupied(s'.slots) == Occupied(s.slots) + Accepted(k, refused)
      && forall j :: 0 <= j < |s.slots| && s.slots[j].Some? ==> s'.slots[j] == s.slots[j]
  {
    if k > 0 {
      StartAllFills(s, c, k - 1, refused);
      StartOneFills(StartAll(s, c, k - 1, refused), c, k - 1 !in refused);
    }
  }

  lemma DoKeeps(s: State, n: nat, refused: set<nat>)
    requires Good(s)
    ensures Good(AfterDo(s, n, refused))
  {
    hide SlotsRun, Accounted;
    var exec := Wanted(s, n);
    if exec > 0 {
      PreparedKeeps(s, exec);
      StartAllKeeps(Prepared(s, exec), s.nextContext, exec, refused, exec);
      NothingOwed(AfterDo(s, n, refused), s.nextContext);
    }
  }

  lemma NothingOwed(s: State, c: Context)
    requires Known(s) && Accounted(s, c, 0)
    ensures Accounted(s, 0, 0)
  {
  }

  lemma EndKeeps(s: State, p: Promise)
    requires Good(s) && p in s.running
    ensures Good(AfterEnd(s, p))
  {
    EndAccounts(s, p);
    EndSlots(s, p);
  }

  lemma EndAccounts(s: State, p: Promise)
    requires Known(s) && Accounted(s, 0, 0) && p in s.running
    ensures Known(AfterEnd(s, p)) && Accounted(AfterEnd(s, p), 0, 0)
  {
    var t, s' := s.running[p], AfterEnd(s, p);
    assert Known(s');
    forall x | x in s'.exec ensures s'.exec[x] == |Of(s'.running, x)| + s'.failed[x] {
      hide Of;
      OfAfterEnd(s.running, p, x);
    }
  }

  /** A counter that drops to zero leaves no task of its context, so no pending task loses its context. */
  lemma EndSlots(s: State, p: Promise)
    requires SlotsRun(s) && Known(s) && Accounted(s, 0, 0) && p in s.running
    ensures SlotsRun(AfterEnd(s, p))
  {
    var t, s' := s.running[p], AfterEnd(s, p);
    OfAfterEnd(s.running, p, t.ctx);
    FullWhenAllTaken(s'.slots);
    forall j | 0 <= j < |s'.slots| && s'.slots[j].Some?
      ensures s'.slots[j].value in s'.running && s'.running[s'.slots[j].value].ctx !in s'.cancelled
    {
      assert s.slots[j] == s'.slots[j];
      var q := s.slots[j].value;
      if s.running[q].ctx == t.ctx && q != p {
        assert q in Of(s.running - {p}, t.ctx);
      }
    }
  }

  lemma CancelKeeps(s: State)
    requires Good(s)
    ensures Good(AfterCancel(s))
  {
  }

  // ---------------------------------------------------------------------------------------------
  // Runs
  // ---------------------------------------------------------------------------------------------

  datatype Event =
    | Do(n: nat, refused: set<nat>)
    | End(p: Promise)
    | Cancel

  /** A task can only end while it runs. */
  function Step(s: State, e: Event): State {
    match e
    case Do(n, refused) => AfterDo(s, n, refused)
    case End(p) =>
      if p in s.running && s.running[p].ctx in s.exec && s.running[p].slot < |s.slots| then AfterEnd(s, p) else s
    case Cancel => AfterCancel(s)
  }

  function Run(s: State, es: seq<Event>): State
    decreases |es|
  {
    if es == [] then s else Step(Run(s, es[..|es| - 1]), es[|es| - 1])
  }

  /** Every run keeps the invariant and the number of slots, so at most that many tasks are pending. */
  lemma {:induction false} RunKeeps(s: State, es: seq<Event>)
    requires Good(s)
    ensures Good(Run(s, es)) && |Run(s, es).slots| == |s.slots|
    ensures Occupied(Run(s, es).slots) <= |s.slots|
    decreases |es|
  {
    hide Good;
    if es != [] {
      RunKeeps(s, es[..|es| - 1]);
      StepKeeps(Run(s, es[..|es| - 1]), es[|es| - 1]);
    }
  }

  lemma StepKeeps(s: State, e: Event)
    requires Good(s)
    ensures Good(Step(s, e)) && |Step(s, e).slots| == |s.slots|
  {
    match e
    case Do(n, refused) =>
      DoKeeps(s, n, refused);
      if Wanted(s, n) > 0 {
        StartAllFills(Prepared(s, Wanted(s, n)), s.nextContext, Wanted(s, n), refused);
      }
    case End(p) =>
      if p in s.running {
        EndKeeps(s, p);
      }
    case Cancel => CancelKeeps(s);
  }

  // ---------------------------------------------------------------------------------------------
  // What a caller gets
  // ---------------------------------------------------------------------------------------------

  /**
   * Do starts what is missing to `n`, less what the Goer refuses, moves no pending task, and returns
   * promises of distinct pending tasks, `n` of them when there are that many.
   */
  lemma DoStartsMissing(s: State, n: nat, refused: set<nat>)
    requires Good(s)
    ensures var s', missing := AfterDo(s, n, refused), if Wanted(s, n) > 0 then Wanted(s, n) else 0;
      && Occupied(s'.slots) == Occupied(s.slots) + Accepted(missing, refused)
      && |s'.slots| == |s.slots|
      && (forall j :: 0 <= j < |s.slots| && s.slots[j].Some? ==> s'.slots[j] == s.slots[j])
      && |Returned(s', n)| == Min(Min(n, |s.slots|), Occupied(s'.slots))
      && Distinct(Returned(s', n))
      && forall p :: p in Returned(s', n) ==> Some(p) in s'.slots && p in s'.running
  {
    var s' := AfterDo(s, n, refused);
    if Wanted(s, n) > 0 {
      StartAllFills(Prepared(s, Wanted(s, n)), s.nextContext, Wanted(s, n), refused);
    }
    DoKeeps(s, n, refused);
    PromisesDistinct(s'.slots);
    forall p | p in Returned(s', n) ensures Some(p) in s'.slots && p in s'.running {
      PromisesOf(s'.slots, p);
    }
  }

  lemma {:induction false} PromiseAt(slots: seq<Option<Promise>>, k: nat) returns (j: nat)
    requires k < |Promises(slots)|
    ensures j < |slots| && slots[j] == Some(Promises(slots)[k]) && Occupied(slots[..j]) == k
    decreases |slots|
  {
    var n := |slots| - 1;
    if k < |Promises(slots[..n])| {
      j := PromiseAt(slots[..n], k);
      assert slots[..n][..j] == slots[..j];
    } else {
      j := n;
    }
  }

  /** The promises returned are the first in slot order: the k-th is that of the slot with k occupied before it. */
  lemma ReturnedInOrder(s: State, n: nat, k: nat) returns (j: nat)
    requires k < |Returned(s, n)|
    ensures j < |s.slots| && s.slots[j] == Some(Returned(s, n)[k]) && Occupied(s.slots[..j]) == k
  {
    j := PromiseAt(s.slots, k);
  }

  /** When the last pending task ends there is nothing left to cancel, and before that there is. */
  lemma ChainForgotten(s: State, p: Promise)
    requires Good(s) && Some(p) in s.slots && p in s.running
    ensures AfterEnd(s, p).cancel == None <==> Occupied(s.slots) == 1
  {
    EndFreesOwnSlotOnly(s, p);
    var j :| 0 <= j < |s.slots| && s.slots[j] == Some(p);
    assert s.running[p].ctx in Chain(s.cancel);
  }

  /** With a Goer that never refuses, exactly the missing tasks start and `n` promises come back. */
  lemma DoWithWillingGoer(s: State, n: nat)
    requires Good(s)
    ensures var s' := AfterDo(s, n, {});
      && Occupied(s'.slots) == (if Wanted(s, n) > 0 then Min(n, |s.slots|) else Occupied(s.slots))
      && |Returned(s', n)| == Min(n, |s.slots|)
  {
    DoStartsMissing(s, n, {});
  }

  /** An ending task frees its own slot and no other; the end of a cancelled task frees none. */
  lemma EndFreesOwnSlotOnly(s: State, p: Promise)
    requires Good(s) && p in s.running
    ensures Some(p) in s.slots <==> s.slots[s.running[p].slot] == Some(p)
    ensures var s' := AfterEnd(s, p);
      && (forall j :: 0 <= j < |s.slots| ==> s'.slots[j] == (if s.slots[j] == Some(p) then None else s.slots[j]))
      && Occupied(s'.slots) == Occupied(s.slots) - (if Some(p) in s.slots then 1 else 0)
  {
    var t := s.running[p];
    if s.slots[t.slot] == Some(p) {
      OccupiedAfterWrite(s.slots, t.slot, None);
    }
  }

  /** A task that was cancelled never comes back into a slot, whatever happens until it ends. */
  lemma {:induction false} CancelledStaysOut(s: State, p: Promise, es: seq<Event>)
    requires Good(s) && p < s.nextPromise && Some(p) !in s.slots
    ensures Some(p) !in Run(s, es).slots && p < Run(s, es).nextPromise
    decreases |es|
  {
    if es != [] {
      var n := |es| - 1;
      CancelledStaysOut(s, p, es[..n]);
      RunKeeps(s, es[..n]);
      StaysOut(Run(s, es[..n]), p, es[n]);
    }
  }

  lemma StaysOut(s: State, p: Promise, e: Event)
    requires Good(s) && p < s.nextPromise && Some(p) !in s.slots
    ensures Some(p) !in Step(s, e).slots && p < Step(s, e).nextPromise
  {
    match e
    case Do(n, refused) =>
      if Wanted(s, n) > 0 {
        StartsOthers(Prepared(s, Wanted(s, n)), s.nextContext, Wanted(s, n), refused, p);
      }
    case End(q) =>
    case Cancel =>
  }

  lemma {:induction false} StartsOthers(s: State, c: Context, k: nat, refused: set<nat>, p: Promise)
    requires p < s.nextPromise && Some(p) !in s.slots
    ensures Some(p) !in StartAll(s, c, k, refused).slots && p < StartAll(s, c, k, refused).nextPromise
  {
    if k > 0 {
      StartsOthers(s, c, k - 1, refused, p);
    }
  }

  /** A cancel frees every slot and cancels the context of every task that was pending. */
  lemma CancelReachesPending(s: State, j: nat)
    requires Good(s) && j < |s.slots|
    ensures AfterCancel(s).slots[j] == None && Occupied(AfterCancel(s).slots) == 0
    ensures s.slots[j].Some? ==> AfterCancel(s).running[s.slots[j].value].ctx in AfterCancel(s).cancelled
  {
    FullWhenAllTaken(AfterCancel(s).slots);
  }

  /**
   * An ending task releases its context exactly when it is the last task of its call and no start of that
   * call was refused: a refused start keeps the counter up for good.
   */
  lemma LastEndReleases(s: State, p: Promise)
    requires Good(s) && p in s.running && s.running[p].ctx !in s.cancelled
    ensures var c := s.running[p].ctx;
      c in AfterEnd(s, p).cancelled <==> Of(s.running, c) == {p} && s.failed[c] == 0
  {
    var c := s.running[p].ctx;
    OfAfterEnd(s.running, p, c);
    assert p in Of(s.running, c);
    assert Of(s.running - {p}, c) == Of(s.running, c) - {p};
  }

  // ---------------------------------------------------------------------------------------------
  // The group as a program
  // ---------------------------------------------------------------------------------------------

  /**
   * The fields `n`, `pending` and `cancel` are the group's. The others stand for what the closures and
   * contexts it made hold: each call's counter, the cancelled contexts and all tasks not yet ended.
   */
  class TaskGroup {
    var n: int
    const pending: array<Option<Promise>>
    var cancel: Option<set<Context>>
    var exec: map<Context, int>
    ghost var failed: map<Context, nat>
    var cancelled: set<Context>
    var running: map<Promise, Task>
    var nextPromise: nat
    var nextContext: nat

    ghost function Abs(): State
      reads this, pending
    {
      State(pending[..], cancel, exec, failed, cancelled, running, nextPromise, nextContext)
    }

    ghost predicate Valid()
      reads this, pending
    {
      Good(Abs()) && n == Occupied(pending[..])
    }

    /** Zero slots are taken to mean one. */
    constructor (slots: nat)
      ensures Valid() && Abs() == Start(if slots == 0 then 1 else slots) && fresh(pending)
    {
      n := 0;
      pending := new Option<Promise>[if slots == 0 then 1 else slots](i => None);
      cancel, exec, cancelled, running, nextPromise, nextContext := None, map[], {}, map[], 0, 0;
      failed := map[];
      new;
      StartGood(pending.Length);
      assert pending[..] == seq(pending.Length, i => None);
      FullWhenAllTaken(pending[..]);
    }

    method Do(wanted: nat, refused: set<nat>) returns (ret: seq<Promise>)
      requires Valid()
      modifies this, pending
      ensures Valid() && Abs() == AfterDo(old(Abs()), wanted, refused)
      ensures ret == Returned(Abs(), wanted)
    {
      var most := if wanted > pending.Length then pending.Length else wanted;
      var toStart := most - n;
      DoKeeps(Abs(), wanted, refused);
      if toStart > 0 {
        StartMissing(toStart, refused);
      }
      ret := Collect(most);
    }

    method StartMissing(toStart: nat, refused: set<nat>)
      requires Valid() && 0 < toStart <= pending.Length - n
      modifies this, pending
      ensures Abs() == StartAll(Prepared(old(Abs()), toStart), old(nextContext), toStart, refused)
      ensures n == Occupied(pending[..])
    {
      hide Good, Promises, FirstFree, StartOne;
      ghost var first := Prepared(Abs(), toStart);
      var c := nextContext;
      nextContext := nextContext + 1;
      cancel := Some((if cancel.Some? then cancel.value else {}) + {c});
      exec := exec[c := toStart];
      failed := failed[c := 0];
      var i := 0;
      while i < toStart
        invariant 0 <= i <= toStart
        invariant Abs() == StartAll(first, c, i, refused) && Occupied(first.slots) + toStart <= pending.Length
        invariant n == Occupied(pending[..])
      {
        StartAllFills(first, c, i, refused);
        StartNext(c, i !in refused);
        i := i + 1;
      }
    }

    method StartNext(c: Context, ok: bool)
      requires n == Occupied(pending[..]) < pending.Length
      modifies this, pending
      ensures Abs() == StartOne(old(Abs()), c, ok)
      ensures n == Occupied(pending[..])
    {
      StartOneFills(Abs(), c, ok);
      var j := FindFree();
      var done := nextPromise;
      nextPromise := nextPromise + 1;
      if ok {
        running := running[done := Task(j, c)];
        pending[j] := Some(done);
        n := n + 1;
      } else {
        failed := failed[c := (if c in failed then failed[c] else 0) + 1];
      }
    }

    method FindFree() returns (j: nat)
      ensures j == FirstFree(pending[..])
    {
      j := 0;
      while j < pending.Length && pending[j] != None
        invariant 0 <= j <= pending.Length
        invariant forall i :: 0 <= i < j ==> pending[i].Some?
      {
        j := j + 1;
      }
      assert forall i :: 0 <= i < pending.Length ==> pending[..][i] == pending[i];
    }

    method Collect(most: nat) returns (ret: seq<Promise>)
      ensures ret == Promises(pending[..])[..Min(most, Occupied(pending[..]))]
    {
      hide Promises;
      ghost var slots := pending[..];
      ret := [];
      PromisesNext(slots, 0);
      var i := 0;
      while i < pending.Length && |ret| < most
        invariant 0 <= i <= pending.Length && |ret| <= most
        invariant ret == Promises(slots[..i])
      {
        PromisesNext(slots, i);
        if pending[i] != None {
          ret := ret + [pending[i].value];
        }
        i := i + 1;
      }
      PromisesGrow(slots, i);
      assert i == pending.Length ==> slots[..i] == slots;
    }

    /** The tail of a started task: what it does under the lock once its work is done. */
    method End(p: Promise)
      requires Valid() && p in running
      modifies this, pending
      ensures Valid() && Abs() == AfterEnd(old(Abs()), p)
    {
      hide SlotsRun, Accounted, Promises;
      EndKeeps(Abs(), p);
      EndFreesOwnSlotOnly(Abs(), p);
      var t := running[p];
      running := running - {p};
      exec := exec[t.ctx := exec[t.ctx] - 1];
      if exec[t.ctx] == 0 {
        cancelled := cancelled + {t.ctx};
      }
      if pending[t.slot] == Some(p) {
        pending[t.slot] := None;
        assert pending[..] == old(pending[..])[t.slot := None];
        n := n - 1;
        if n == 0 {
          cancel := None;
        }
      }
    }

    method Cancel()
      requires Valid()
      modifies this, pending
      ensures Valid() && Abs() == AfterCancel(old(Abs()))
    {
      CancelKeeps(Abs());
      FullWhenAllTaken(AfterCancel(Abs()).slots);
      if cancel.Some? {
        cancelled := cancelled + cancel.value;
        cancel := None;
      }
      for i := 0 to pending.Length
        invariant forall k :: 0 <= k < i ==> pending[k] == None
        invariant Abs().(slots := []) == AfterCancel(old(Abs())).(slots := [])
      {
        pending[i] := None;
      }
      n := 0;
      assert pending[..] == AfterCancel(old(Abs())).slots;
    }
  }
}
