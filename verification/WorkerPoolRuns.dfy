/** When a schedule fails, when it must succeed, and the order in which tasks leave the queue. */
module WorkerPoolRuns {
  import opened Counting
  import opened WorkerPool

  /** The schedule of this task has returned the error that the pool is unavailable. */
  predicate Refused(s: State, id: TaskId) { SchedAt(s, id, Unavailable) }

  /** It has looked into the queue once, and waits for room or for a token. */
  predicate SawFull(s: State, id: TaskId) { id in s.scheds && s.scheds[id].pc.Second? }

  /** The event starts the schedule of the task. */
  predicate Starts(e: Event, id: TaskId) { e.Schedule? && e.id == id }

  // ---------------------------------------------------------------------------------------------
  // One step
  // ---------------------------------------------------------------------------------------------

  lemma RefusedStep(c: Config, s: State, e: Event, id: TaskId)
    requires Enabled(c, s, e) && Refused(Next(c, s, e), id) && !Refused(s, id)
    ensures SawFull(s, id) && c.maxWorkers > 0 && (s.scheds[id].pc.immediate ==> s.sem == c.maxWorkers)
  {
    SchedMovesTo(c, s, e, id);
  }

  lemma FullStep(c: Config, s: State, e: Event, id: TaskId)
    requires Enabled(c, s, e) && SawFull(Next(c, s, e), id) && !SawFull(s, id)
    ensures id in s.scheds && s.scheds[id].pc.First? && |s.work| == c.queueSize && !s.killed
    ensures Next(c, s, e).scheds[id].pc.immediate == s.scheds[id].pc.immediate
  {
    SchedMovesTo(c, s, e, id);
  }

  lemma FirstStep(c: Config, s: State, e: Event, id: TaskId)
    requires Enabled(c, s, e) && id in Next(c, s, e).scheds && Next(c, s, e).scheds[id].pc.First?
    ensures e == Schedule(id, Next(c, s, e).scheds[id].pc.immediate) ||
      (id in s.scheds && s.scheds[id].pc == Next(c, s, e).scheds[id].pc)
  {
    SchedMovesTo(c, s, e, id);
  }

  lemma ClosedStep(c: Config, s: State, e: Event, id: TaskId)
    requires Enabled(c, s, e) && id in Next(c, s, e).scheds
    requires Next(c, s, e).scheds[id].pc in {PoolClosed, Releasing}
    ensures s.killed || (id in s.scheds && s.scheds[id].pc in {PoolClosed, Releasing})
  {
    SchedMovesTo(c, s, e, id);
  }

  /** The program counter of a schedule is moved by its own steps only. */
  lemma SchedMovesTo(c: Config, s: State, e: Event, id: TaskId)
    requires Enabled(c, s, e) && id in Next(c, s, e).scheds
    ensures id !in s.scheds ==> e.Schedule? && e.id == id
    ensures id in s.scheds && !OwnStep(e, id) ==> Next(c, s, e).scheds[id].pc == s.scheds[id].pc
  {
    hide Moved, Executed;
    match e
    case Receive(_) => ItemsKeepPcs(s, s.work[0], id);
    case Run(w) => ItemsKeepPcs(s, s.workers[w].pc.item, id);
    case TakeOut => ItemsKeepPcs(s, s.work[0], id);
    case _ =>
  }

  lemma ItemsKeepPcs(s: State, item: Item, id: TaskId)
    ensures forall at :: Moved(s, item, at).Keys == s.scheds.Keys
    ensures forall at :: id in s.scheds ==> Moved(s, item, at)[id].pc == s.scheds[id].pc
    ensures Executed(s, item).scheds.Keys == s.scheds.Keys
    ensures id in s.scheds ==> Executed(s, item).scheds[id].pc == s.scheds[id].pc
  {
  }

  predicate OwnStep(e: Event, id: TaskId) {
    match e
    case Enqueue(i) => i == id
    case HandOver(i, _) => i == id
    case SawKill(i) => i == id
    case QueueFull(i) => i == id
    case NoSemaphore(i) => i == id
    case Token(i) => i == id
    case GiveUp(i) => i == id
    case Spawn(i, _) => i == id
    case SpawnClosed(i) => i == id
    case ReturnToken(i) => i == id
    case _ => false
  }

  // ---------------------------------------------------------------------------------------------
  // Why a schedule fails
  // ---------------------------------------------------------------------------------------------

  lemma {:induction false} StartedAs(c: Config, ss: seq<State>, es: seq<Event>, i: nat, id: TaskId) returns (k: nat)
    requires Behaviour(c, ss, es) && i < |ss| && id in ss[i].scheds && ss[i].scheds[id].pc.First?
    ensures k < i && es[k] == Schedule(id, ss[i].scheds[id].pc.immediate)
    decreases i
  {
    hide Enabled, Next;
    if i == 0 {
      assert false;
    } else {
      FirstStep(c, ss[i - 1], es[i - 1], id);
      k := i - 1;
      if es[k] != Schedule(id, ss[i].scheds[id].pc.immediate) {
        k := StartedAs(c, ss, es, i - 1, id);
      }
    }
  }

  /** Who waits for room or a token was scheduled so and has found the queue full of an open pool. */
  lemma {:induction false} FoundFull(c: Config, ss: seq<State>, es: seq<Event>, i: nat, id: TaskId)
    returns (m: nat, k: nat)
    requires Behaviour(c, ss, es) && i < |ss| && SawFull(ss[i], id)
    ensures m < k < i && es[m] == Schedule(id, ss[i].scheds[id].pc.immediate)
    ensures !SawFull(ss[k], id) && SawFull(ss[k + 1], id) && |ss[k].work| == c.queueSize && !ss[k].killed
    decreases i
  {
    hide Enabled, Next;
    if i == 0 {
      assert false;
    } else if SawFull(ss[i - 1], id) {
      m, k := FoundFull(c, ss, es, i - 1, id);
      FullKept(c, ss[i - 1], es[i - 1], id);
    } else {
      FullStep(c, ss[i - 1], es[i - 1], id);
      k := i - 1;
      m := StartedAs(c, ss, es, k, id);
    }
  }

  lemma FullKept(c: Config, s: State, e: Event, id: TaskId)
    requires Enabled(c, s, e) && SawFull(s, id) && SawFull(Next(c, s, e), id)
    ensures Next(c, s, e).scheds[id].pc == s.scheds[id].pc
  {
    SchedMovesTo(c, s, e, id);
  }

  /**
   A schedule is refused only by a pool with a limit on its workers, after it found the queue full, and with
   an immediate timeout only while all tokens are taken.
   */
  lemma RefusedOnlyWhenFull(c: Config, ss: seq<State>, es: seq<Event>, i: nat, id: TaskId) returns (m: nat, k: nat)
    requires Behaviour(c, ss, es) && i < |es| && !Refused(ss[i], id) && Refused(ss[i + 1], id)
    ensures c.maxWorkers > 0
    ensures m < k < i && es[m].Schedule? && es[m].id == id && |ss[k].work| == c.queueSize && !ss[k].killed
    ensures !SawFull(ss[k], id) && SawFull(ss[k + 1], id)
    ensures es[m].immediate ==> ss[i].sem == c.maxWorkers
  {
    RefusedStep(c, ss[i], es[i], id);
    m, k := FoundFull(c, ss, es, i, id);
  }

  /** Without a limit nothing is ever refused. */
  lemma {:induction false} NeverRefused(c: Config, ss: seq<State>, es: seq<Event>, i: nat, id: TaskId)
    requires Behaviour(c, ss, es) && i < |ss| && c.maxWorkers == 0
    ensures !Refused(ss[i], id)
    decreases i
  {
    hide Enabled, Next;
    if i > 0 {
      NeverRefused(c, ss, es, i - 1, id);
      if Refused(ss[i], id) {
        RefusedStep(c, ss[i - 1], es[i - 1], id);
      }
    }
  }

  lemma {:induction false} KillTells(c: Config, ss: seq<State>, es: seq<Event>, i: nat)
    requires Behaviour(c, ss, es) && i < |ss|
    ensures ss[i].killed <==> Kill in es[..i]
    decreases i
  {
    hide Enabled, Next;
    if i > 0 {
      KillTells(c, ss, es, i - 1);
      KillStep(c, ss[i - 1], es[i - 1]);
      assert es[..i] == es[..i - 1] + [es[i - 1]];
    }
  }

  lemma KillStep(c: Config, s: State, e: Event)
    requires Enabled(c, s, e)
    ensures Next(c, s, e).killed <==> s.killed || e == Kill
  {
  }

  /** A schedule fails with a closed pool only after Close was called. */
  lemma {:induction false} ClosedOnlyAfterKill(c: Config, ss: seq<State>, es: seq<Event>, i: nat, id: TaskId)
    requires Behaviour(c, ss, es) && i < |ss| && id in ss[i].scheds && ss[i].scheds[id].pc in {PoolClosed, Releasing}
    ensures Kill in es[..i]
    decreases i
  {
    hide Enabled, Next;
    if i == 0 {
      assert false;
    } else {
      ClosedStep(c, ss[i - 1], es[i - 1], id);
      KillTells(c, ss, es, i - 1);
      assert forall e :: e in es[..i - 1] ==> e in es[..i];
      if !ss[i - 1].killed {
        ClosedOnlyAfterKill(c, ss, es, i - 1, id);
      }
    }
  }

  // ---------------------------------------------------------------------------------------------
  // Why it succeeds
  // ---------------------------------------------------------------------------------------------

  ghost function Last(ss: seq<State>): State
    requires ss != []
  {
    ss[|ss| - 1]
  }

  lemma OneMore(c: Config, ss: seq<State>, es: seq<Event>, e: Event) returns (ss': seq<State>)
    requires Behaviour(c, ss, es) && Enabled(c, Last(ss), e)
    ensures Behaviour(c, ss', es + [e]) && ss < ss' && Last(ss') == Next(c, Last(ss), e)
  {
    hide Enabled, Next;
    ss' := ss + [Next(c, Last(ss), e)];
  }

  /** What a schedule needs to get a worker of its own. */
  predicate HasToken(c: Config, s: State) { c.maxWorkers == 0 || s.sem < c.maxWorkers }

  function TakeToken(c: Config, id: TaskId): Event { if c.maxWorkers == 0 then NoSemaphore(id) else Token(id) }

  lemma SpawnSteps(c: Config, s: State, id: TaskId, w: WorkerId) returns (s1: State, s2: State, s3: State)
    requires id in s.scheds && s.scheds[id].pc.First? && |s.work| == c.queueSize && !s.killed
    requires HasToken(c, s) && w !in s.workers
    ensures Enabled(c, s, QueueFull(id)) && s1 == Next(c, s, QueueFull(id))
    ensures Enabled(c, s1, TakeToken(c, id)) && s2 == Next(c, s1, TakeToken(c, id))
    ensures Enabled(c, s2, Spawn(id, w)) && s3 == Next(c, s2, Spawn(id, w))
    ensures SchedAt(s3, id, Ok) && WorkerAt(s3, w, Running(Job(id), false)) && s3.ran == s.ran
    ensures s3.workers == s.workers[w := s3.workers[w]]
  {
    s1 := Next(c, s, QueueFull(id));
    s2 := Next(c, s1, TakeToken(c, id));
    s3 := Next(c, s2, Spawn(id, w));
  }

  /**
   An open pool with a full queue gives a schedule a new worker whenever there is a token left, or no limit:
   three steps of its own return nil, and the next step of that worker runs the task.
   */
  lemma FullQueueSpawns(c: Config, ss: seq<State>, es: seq<Event>, id: TaskId, w: WorkerId) returns (ss': seq<State>)
    requires Behaviour(c, ss, es) && !Last(ss).killed && w !in Last(ss).workers
    requires id in Last(ss).scheds && Last(ss).scheds[id].pc.First? && |Last(ss).work| == c.queueSize
    requires HasToken(c, Last(ss))
    ensures Behaviour(c, ss', es + [QueueFull(id), TakeToken(c, id), Spawn(id, w), Run(w)]) && ss < ss'
    ensures SchedAt(ss'[|ss| + 2], id, Ok) && WorkerAt(ss'[|ss| + 2], w, Running(Job(id), false))
    ensures Last(ss').ran[id] == Last(ss).ran[id] + 1
  {
    hide Enabled, Next;
    var s1, s2, s3 := SpawnSteps(c, Last(ss), id, w);
    RunCounts(c, s3, w, Job(id));
    ss' := OneMore(c, ss, es, QueueFull(id));
    ss' := OneMore(c, ss', es + [QueueFull(id)], TakeToken(c, id));
    ss' := OneMore(c, ss', es + [QueueFull(id)] + [TakeToken(c, id)], Spawn(id, w));
    ss' := OneMore(c, ss', es + [QueueFull(id)] + [TakeToken(c, id)] + [Spawn(id, w)], Run(w));
    assert es + [QueueFull(id)] + [TakeToken(c, id)] + [Spawn(id, w)] + [Run(w)]
        == es + [QueueFull(id), TakeToken(c, id), Spawn(id, w), Run(w)];
  }

  lemma RunCounts(c: Config, s: State, w: WorkerId, item: Item)
    requires w in s.workers && s.workers[w].pc.Running? && s.workers[w].pc.item == item && item.Job?
    ensures Enabled(c, s, Run(w)) && Next(c, s, Run(w)).ran == s.ran + multiset{item.id}
  {
  }

  /** In the first select, or in the second of a pool with a limit, which an immediate timeout does not reach. */
  predicate AtSelect(c: Config, s: State, id: TaskId) {
    id in s.scheds && (s.scheds[id].pc.First? || (s.scheds[id].pc == Second(false) && c.maxWorkers > 0))
  }

  /** With room in the queue the task is put at its end in one step. */
  lemma RoomTakesTask(c: Config, ss: seq<State>, es: seq<Event>, id: TaskId) returns (ss': seq<State>)
    requires Behaviour(c, ss, es) && |Last(ss).work| < c.queueSize && AtSelect(c, Last(ss), id)
    ensures Behaviour(c, ss', es + [Enqueue(id)]) && ss < ss'
    ensures SchedAt(Last(ss'), id, Ok) && Last(ss').work == Last(ss).work + [Job(id)]
  {
    ss' := OneMore(c, ss, es, Enqueue(id));
  }

  /** With nothing queued an idle worker is handed the task and runs it. */
  lemma IdleIsHanded(c: Config, ss: seq<State>, es: seq<Event>, id: TaskId, w: WorkerId) returns (ss': seq<State>)
    requires Behaviour(c, ss, es) && Last(ss).work == [] && AtSelect(c, Last(ss), id) && WorkerAt(Last(ss), w, Idle)
    ensures Behaviour(c, ss', es + [HandOver(id, w), Run(w)]) && ss < ss'
    ensures SchedAt(Last(ss'), id, Ok) && Last(ss').ran == Last(ss).ran + multiset{id}
  {
    hide Enabled, Next;
    var s1, s2 := HandSteps(c, Last(ss), id, w);
    ss' := OneMore(c, ss, es, HandOver(id, w));
    ss' := OneMore(c, ss', es + [HandOver(id, w)], Run(w));
    assert es + [HandOver(id, w)] + [Run(w)] == es + [HandOver(id, w), Run(w)];
  }

  lemma HandSteps(c: Config, s: State, id: TaskId, w: WorkerId) returns (s1: State, s2: State)
    requires s.work == [] && AtSelect(c, s, id) && WorkerAt(s, w, Idle)
    ensures Enabled(c, s, HandOver(id, w)) && s1 == Next(c, s, HandOver(id, w))
    ensures Enabled(c, s1, Run(w)) && s2 == Next(c, s1, Run(w))
    ensures SchedAt(s2, id, Ok) && s2.ran == s.ran + multiset{id}
  {
    s1 := Next(c, s, HandOver(id, w));
    s2 := Next(c, s1, Run(w));
  }

  /** After Close a schedule that still looks can fail at once. */
  lemma KilledRefuses(c: Config, ss: seq<State>, es: seq<Event>, id: TaskId) returns (ss': seq<State>)
    requires Behaviour(c, ss, es) && Kill in es && AtSelect(c, Last(ss), id)
    ensures Behaviour(c, ss', es + [SawKill(id)]) && SchedAt(Last(ss'), id, PoolClosed)
  {
    KillTells(c, ss, es, |es|);
    assert es[..|es|] == es;
    ss' := OneMore(c, ss, es, SawKill(id));
  }

  /** An idle worker can always take the head of the queue and run it. */
  lemma IdleRunsHead(c: Config, ss: seq<State>, es: seq<Event>, w: WorkerId, id: TaskId) returns (ss': seq<State>)
    requires Behaviour(c, ss, es) && WorkerAt(Last(ss), w, Idle)
    requires Last(ss).work != [] && Last(ss).work[0] == Job(id)
    ensures Behaviour(c, ss', es + [Receive(w), Run(w)]) && ss < ss'
    ensures Last(ss').ran == Last(ss).ran + multiset{id} && Last(ss').work == Last(ss).work[1..]
    ensures WorkerAt(Last(ss'), w, Idle)
  {
    hide Enabled, Next;
    var s1, s2 := HeadSteps(c, Last(ss), w, id);
    ss' := OneMore(c, ss, es, Receive(w));
    ss' := OneMore(c, ss', es + [Receive(w)], Run(w));
    assert es + [Receive(w)] + [Run(w)] == es + [Receive(w), Run(w)];
  }

  lemma HeadSteps(c: Config, s: State, w: WorkerId, id: TaskId) returns (s1: State, s2: State)
    requires WorkerAt(s, w, Idle) && s.work != [] && s.work[0] == Job(id)
    ensures Enabled(c, s, Receive(w)) && s1 == Next(c, s, Receive(w))
    ensures Enabled(c, s1, Run(w)) && s2 == Next(c, s1, Run(w))
    ensures s2.ran == s.ran + multiset{id} && s2.work == s.work[1..] && WorkerAt(s2, w, Idle)
  {
    s1 := Next(c, s, Receive(w));
    s2 := Next(c, s1, Run(w));
  }

  // ---------------------------------------------------------------------------------------------
  // The order of the queue
  // ---------------------------------------------------------------------------------------------

  function EnteredBy(e: Event): seq<Item> {
    match e
    case Enqueue(id) => [Job(id)]
    case Put => [Stub]
    case _ => []
  }

  /** What a worker now holds, or what was at the head when Close took it out. */
  function LeftBy(s: State, e: Event, s': State): seq<Item> {
    match e
    case Receive(w) => if w in s'.workers && s'.workers[w].pc.Running? then [s'.workers[w].pc.item] else []
    case TakeOut => s.work[..if s.work == [] then 0 else 1]
    case _ => []
  }

  function Entered(es: seq<Event>, i: nat): seq<Item>
    requires i <= |es|
  {
    if i == 0 then [] else Entered(es, i - 1) + EnteredBy(es[i - 1])
  }

  function Departed(ss: seq<State>, es: seq<Event>, i: nat): seq<Item>
    requires i <= |es| && |ss| == |es| + 1
  {
    if i == 0 then [] else Departed(ss, es, i - 1) + LeftBy(ss[i - 1], es[i - 1], ss[i])
  }

  /** Items leave the queue in the order they came, and tasks handed over directly overtake none. */
  lemma {:induction false} QueueIsFifo(c: Config, ss: seq<State>, es: seq<Event>, i: nat)
    requires Behaviour(c, ss, es) && i < |ss|
    ensures Entered(es, i) == Departed(ss, es, i) + ss[i].work
    ensures i < |es| && es[i].HandOver? ==> ss[i].work == []
    decreases i
  {
    hide Enabled, Next, LeftBy, EnteredBy;
    if i > 0 {
      QueueIsFifo(c, ss, es, i - 1);
      QueueStepOrder(c, ss[i - 1], es[i - 1]);
      assert Departed(ss, es, i - 1) + (ss[i - 1].work + EnteredBy(es[i - 1]))
          == Departed(ss, es, i - 1) + ss[i - 1].work + EnteredBy(es[i - 1]);
    }
    if i < |es| && es[i].HandOver? {
      HandOverNeedsEmpty(c, ss[i], es[i]);
    }
  }

  lemma QueueStepOrder(c: Config, s: State, e: Event)
    requires Enabled(c, s, e)
    ensures s.work + EnteredBy(e) == LeftBy(s, e, Next(c, s, e)) + Next(c, s, e).work
  {
    hide Moved, Executed;
    match e
    case Enqueue(_) =>
    case Put =>
    case Receive(_) => assert s.work == [s.work[0]] + s.work[1..];
    case TakeOut => assert s.work == [s.work[0]] + s.work[1..];
    case _ => QueueKept(c, s, e);
  }

  lemma QueueKept(c: Config, s: State, e: Event)
    requires Enabled(c, s, e) && !e.Enqueue? && !e.Put? && !e.Receive? && !e.TakeOut?
    ensures Next(c, s, e).work == s.work
  {
  }

  lemma HandOverNeedsEmpty(c: Config, s: State, e: Event)
    requires Enabled(c, s, e) && e.HandOver?
    ensures s.work == []
  {
  }

  // ---------------------------------------------------------------------------------------------
  // The workers that stay
  // ---------------------------------------------------------------------------------------------

  /** A worker in the pool of an open pool runs something or waits for something to run. */
  predicate AtWork(pc: WorkerPc) { pc == Idle || (pc.Running? && !pc.draining) }

  /** In an open pool nobody drains the queue, and only extra workers may leave. */
  predicate Stays(killed: bool, x: Worker) {
    !killed ==> x.pc != Draining && (x.pc.Running? ==> !x.pc.draining) && (!x.extra ==> AtWork(x.pc))
  }

  ghost predicate Staying(c: Config, s: State) {
    && (forall w: WorkerId :: w < c.unstoppable ==> w in s.workers && !s.workers[w].extra)
    && (forall w :: w in s.workers ==> Stays(s.killed, s.workers[w]))
  }

  lemma StayingStep(c: Config, s: State, e: Event)
    requires Staying(c, s) && Enabled(c, s, e)
    ensures Staying(c, Next(c, s, e))
  {
    hide Staying;
    match e
    case Spawn(_, w) => StayingMove(c, s, Next(c, s, e), w);
    case HandOver(_, w) => StayingMove(c, s, Next(c, s, e), w);
    case Receive(w) => StayingMove(c, s, Next(c, s, e), w);
    case Run(w) => RunStays(c, s, w);
    case _ => PlainStays(c, s, e);
  }

  lemma PlainStays(c: Config, s: State, e: Event)
    requires Staying(c, s) && Enabled(c, s, e) && !e.Spawn? && !e.HandOver? && !e.Receive? && !e.Run?
    ensures Staying(c, Next(c, s, e))
  {
    hide Staying;
    if e.Expire? || e.SeeKill? || e.QueueEmpty? || e.FreeToken? || e.LeaveGroup? {
      StayingMove(c, s, Next(c, s, e), e.w);
    } else {
      StayingFrame(c, s, Next(c, s, e));
    }
  }

  lemma RunStays(c: Config, s: State, w: WorkerId)
    requires Staying(c, s) && Enabled(c, s, Run(w))
    ensures Staying(c, Next(c, s, Run(w)))
  {
    StayingMove(c, s, Next(c, s, Run(w)), w);
  }

  lemma StayingFrame(c: Config, s: State, s': State)
    requires Staying(c, s) && s'.workers == s.workers && (s.killed ==> s'.killed)
    ensures Staying(c, s')
  {
  }

  /** One worker moves: none that draws on the queue of an open pool stops, and only new ones are extra. */
  lemma StayingMove(c: Config, s: State, s': State, w: WorkerId)
    requires Staying(c, s) && s'.killed == s.killed
    requires w in s'.workers && s'.workers == s.workers[w := s'.workers[w]]
    requires s'.workers[w].extra == if w in s.workers then s.workers[w].extra else true
    requires w in s.workers && Stays(s.killed, s.workers[w]) ==> Stays(s.killed, s'.workers[w])
    requires w !in s.workers ==> Stays(s.killed, s'.workers[w])
    ensures Staying(c, s')
  {
  }

  /** The workers New starts stay until Close, and each is running a task or waiting for one. */
  lemma {:induction false} UnstoppableStay(c: Config, ss: seq<State>, es: seq<Event>, i: nat)
    requires Behaviour(c, ss, es) && i < |ss|
    ensures Staying(c, ss[i])
    decreases i
  {
    hide Enabled, Next, Staying;
    if i == 0 {
      StayingAtFirst(c);
    } else {
      UnstoppableStay(c, ss, es, i - 1);
      StayingStep(c, ss[i - 1], es[i - 1]);
    }
  }

  lemma StayingAtFirst(c: Config)
    ensures Staying(c, Init(c))
  {
    UnstoppableCount(c.unstoppable);
  }

  lemma WorkersStay(c: Config, ss: seq<State>, es: seq<Event>, i: nat, w: WorkerId)
    requires Behaviour(c, ss, es) && i < |ss| && Kill !in es[..i] && w < c.unstoppable
    ensures w in ss[i].workers && AtWork(ss[i].workers[w].pc)
  {
    UnstoppableStay(c, ss, es, i);
    KillTells(c, ss, es, i);
  }

  // ---------------------------------------------------------------------------------------------
  // What is left in the queue
  // ---------------------------------------------------------------------------------------------

  /** A worker leaves a pool that is corked only because it expired or because it saw the queue empty after kill. */
  lemma LeavesEmpty(c: Config, ss: seq<State>, es: seq<Event>, i: nat, w: WorkerId)
    requires Behaviour(c, ss, es) && i < |es| && !c.noCork
    requires WorkerAt(ss[i + 1], w, Exiting) && !WorkerAt(ss[i], w, Exiting)
    ensures es[i] == Expire(w) || (ss[i].work == [] && Kill in es[..i])
  {
    LeavingStep(c, ss[i], es[i], w);
    UnstoppableStay(c, ss, es, i);
    KillTells(c, ss, es, i);
  }

  lemma LeavingStep(c: Config, s: State, e: Event, w: WorkerId)
    requires Enabled(c, s, e) && WorkerAt(Next(c, s, e), w, Exiting) && !WorkerAt(s, w, Exiting)
    ensures e == Expire(w) || (e == SeeKill(w) && c.noCork) || (WorkerAt(s, w, Draining) && s.work == [])
  {
  }

  /** A pool that is not to be corked closes as soon as its workers have left, whatever is in the queue. */
  lemma {:induction false} NoCorkDrops(c: Config, ss: seq<State>, es: seq<Event>, i: nat)
    requires Behaviour(c, ss, es) && i < |ss| && c.noCork
    ensures ss[i].closer in {Open, Waiting, Closed}
    ensures i < |es| && es[i] == AllLeft ==> ss[i + 1].closer == Closed && ss[i + 1].work == ss[i].work
    decreases i
  {
    if i > 0 {
      hide Enabled, Next;
      NoCorkDrops(c, ss, es, i - 1);
      NoCorkStep(c, ss[i - 1], es[i - 1]);
    }
    if i < |es| && es[i] == AllLeft {
      NoCorkCloses(c, ss[i]);
    }
  }

  lemma NoCorkCloses(c: Config, s: State)
    requires Enabled(c, s, AllLeft) && c.noCork
    ensures Next(c, s, AllLeft).closer == Closed && Next(c, s, AllLeft).work == s.work
  {
  }

  lemma NoCorkStep(c: Config, s: State, e: Event)
    requires Enabled(c, s, e) && c.noCork && s.closer in {Open, Waiting, Closed}
    ensures Next(c, s, e).closer in {Open, Waiting, Closed}
  {
  }
}
