/**
 The goroutine pool: schedulers, workers and one Close as interleaved steps.

 The work queue is a bounded channel; with no buffer a task is handed straight to a waiting worker.
 Timeouts and cancellations may happen at any time. Direct messages to single workers are not modelled.
 */
module WorkerPool {
  import opened Counting

  /** `maxWorkers` 0 stands for a pool without a semaphore. */
  datatype Config = Config(unstoppable: nat, maxWorkers: nat, queueSize: nat, noCork: bool)

  /** The configurations New accepts. */
  predicate Accepted(c: Config) {
    && (c.maxWorkers > 0 ==> c.unstoppable <= c.maxWorkers)
    && (c.unstoppable == 0 ==> c.queueSize == 0)
  }

  type TaskId = nat
  type WorkerId = nat

  datatype Item = Stub | Job(id: TaskId)

  datatype SchedPc =
    | First(immediate: bool)     // the optimistic select
    | Second(immediate: bool)    // the blocking select
    | Spawning                   // holds a semaphore token, unless the pool has no semaphore
    | Releasing                  // the pool was closed; gives the token back
    | Ok
    | Unavailable
    | PoolClosed

  /** Where a scheduler's task is. An auxiliary variable, never read by a guard. */
  datatype Where = Nowhere | Queued | Held(w: WorkerId) | Ran

  datatype Sched = Sched(pc: SchedPc, at: Where)

  datatype WorkerPc =
    | Running(item: Item, draining: bool)
    | Idle                       // the select loop
    | Draining                   // saw kill: reads what is left in the queue
    | Exiting                    // about to give its token back
    | TokenFreed                 // about to leave the wait group
    | Left

  datatype Worker = Worker(pc: WorkerPc, extra: bool)

  datatype Closer =
    | Open
    | Waiting                    // killed; waits for the wait group
    | Filling(i: nat)            // cork: i stubs put in this pass
    | Emptying(j: nat)           // cork: j items taken in this pass
    | Closed                     // done is closed

  datatype State = State(
    work: seq<Item>, sem: nat, killed: bool, wg: nat,
    scheds: map<TaskId, Sched>, workers: map<WorkerId, Worker>,
    ran: multiset<TaskId>, stubRan: bool, closer: Closer)

  datatype Event =
    | Schedule(id: TaskId, immediate: bool)
    | Enqueue(id: TaskId)
    | HandOver(id: TaskId, w: WorkerId)
    | SawKill(id: TaskId)
    | QueueFull(id: TaskId)
    | NoSemaphore(id: TaskId)
    | Token(id: TaskId)
    | GiveUp(id: TaskId)
    | Spawn(id: TaskId, w: WorkerId)
    | SpawnClosed(id: TaskId)
    | ReturnToken(id: TaskId)
    | Receive(w: WorkerId)
    | Run(w: WorkerId)
    | Expire(w: WorkerId)
    | SeeKill(w: WorkerId)
    | QueueEmpty(w: WorkerId)
    | FreeToken(w: WorkerId)
    | LeaveGroup(w: WorkerId)
    | Kill
    | AllLeft
    | Put
    | Blocked
    | TakeOut
    | PassOver
    | FullOfStubs

  /** The workers New starts; they never expire. */
  function Unstoppable(n: nat): map<WorkerId, Worker> {
    if n == 0 then map[] else Unstoppable(n - 1)[n - 1 := Worker(Idle, false)]
  }

  function Init(c: Config): State {
    State([], if c.maxWorkers > 0 then c.unstoppable else 0, false, c.unstoppable, map[],
          Unstoppable(c.unstoppable), multiset{}, false, Open)
  }

  predicate SchedAt(s: State, id: TaskId, pc: SchedPc) { id in s.scheds && s.scheds[id].pc == pc }

  /** In one of the two selects that may put its task into the queue. */
  predicate Offering(s: State, c: Config, id: TaskId) {
    && id in s.scheds
    && (s.scheds[id].pc.First? || (s.scheds[id].pc == Second(false) && c.maxWorkers > 0))
  }

  predicate WorkerAt(s: State, w: WorkerId, pc: WorkerPc) { w in s.workers && s.workers[w].pc == pc }

  predicate Enabled(c: Config, s: State, e: Event) {
    match e
    case Schedule(id, _) => id !in s.scheds
    case Enqueue(id) => Offering(s, c, id) && |s.work| < c.queueSize
    case HandOver(id, w) => Offering(s, c, id) && s.work == [] && (WorkerAt(s, w, Idle) || WorkerAt(s, w, Draining))
    case SawKill(id) => Offering(s, c, id) && s.killed
    case QueueFull(id) => id in s.scheds && s.scheds[id].pc.First? && !s.killed && |s.work| == c.queueSize
    case NoSemaphore(id) => id in s.scheds && s.scheds[id].pc.Second? && c.maxWorkers == 0
    case Token(id) => id in s.scheds && s.scheds[id].pc.Second? && s.sem < c.maxWorkers
    case GiveUp(id) =>
      && id in s.scheds && s.scheds[id].pc.Second? && c.maxWorkers > 0
      && (s.scheds[id].pc.immediate ==> s.sem == c.maxWorkers)
    case Spawn(id, w) => SchedAt(s, id, Spawning) && !s.killed && w !in s.workers
    case SpawnClosed(id) => SchedAt(s, id, Spawning) && s.killed
    case ReturnToken(id) => SchedAt(s, id, Releasing) && (c.maxWorkers > 0 ==> s.sem > 0)
    case Receive(w) => s.work != [] && (WorkerAt(s, w, Idle) || WorkerAt(s, w, Draining))
    case Run(w) => w in s.workers && s.workers[w].pc.Running?
    case Expire(w) => WorkerAt(s, w, Idle) && s.workers[w].extra
    case SeeKill(w) => WorkerAt(s, w, Idle) && s.killed
    case QueueEmpty(w) => WorkerAt(s, w, Draining) && s.work == []
    case FreeToken(w) => WorkerAt(s, w, Exiting) && (c.maxWorkers > 0 ==> s.sem > 0)
    case LeaveGroup(w) => WorkerAt(s, w, TokenFreed) && s.wg > 0
    case Kill => s.closer == Open
    case AllLeft => s.closer == Waiting && s.wg == 0
    case Put => s.closer.Filling? && s.closer.i < c.queueSize && |s.work| < c.queueSize
    case Blocked => s.closer.Filling? && s.closer.i < c.queueSize && |s.work| == c.queueSize
    case TakeOut => s.closer.Emptying? && s.closer.j < c.queueSize && s.work != []
    case PassOver => s.closer == Emptying(c.queueSize)
    case FullOfStubs => s.closer == Filling(c.queueSize)
  }

  function SetPc(s: State, id: TaskId, pc: SchedPc): State
    requires id in s.scheds
  {
    s.(scheds := s.scheds[id := s.scheds[id].(pc := pc)])
  }

  function SetWorker(s: State, w: WorkerId, pc: WorkerPc): State
    requires w in s.workers
  {
    s.(workers := s.workers[w := s.workers[w].(pc := pc)])
  }

  function Moved(s: State, item: Item, at: Where): map<TaskId, Sched> {
    if item.Job? && item.id in s.scheds then s.scheds[item.id := s.scheds[item.id].(at := at)] else s.scheds
  }

  /** Running a task counts it; running a stub panics. */
  function Executed(s: State, item: Item): State {
    if item.Stub? then s.(stubRan := true)
    else s.(ran := s.ran + multiset{item.id}, scheds := Moved(s, item, Ran))
  }

  function Next(c: Config, s: State, e: Event): State
    requires Enabled(c, s, e)
  {
    match e
    case Schedule(id, immediate) => s.(scheds := s.scheds[id := Sched(First(immediate), Nowhere)])
    case Enqueue(id) => s.(work := s.work + [Job(id)], scheds := s.scheds[id := Sched(Ok, Queued)])
    case HandOver(id, w) =>
      SetWorker(s, w, Running(Job(id), s.workers[w].pc == Draining)).(scheds := s.scheds[id := Sched(Ok, Held(w))])
    case SawKill(id) => SetPc(s, id, PoolClosed)
    case QueueFull(id) => SetPc(s, id, Second(s.scheds[id].pc.immediate))
    case NoSemaphore(id) => SetPc(s, id, Spawning)
    case Token(id) => SetPc(s.(sem := s.sem + 1), id, Spawning)
    case GiveUp(id) => SetPc(s, id, Unavailable)
    case Spawn(id, w) =>
      s.(wg := s.wg + 1, workers := s.workers[w := Worker(Running(Job(id), false), true)],
         scheds := s.scheds[id := Sched(Ok, Held(w))])
    case SpawnClosed(id) => SetPc(s, id, if c.maxWorkers > 0 then Releasing else PoolClosed)
    case ReturnToken(id) => SetPc(s.(sem := if c.maxWorkers > 0 then s.sem - 1 else s.sem), id, PoolClosed)
    case Receive(w) =>
      SetWorker(s, w, Running(s.work[0], s.workers[w].pc == Draining))
        .(work := s.work[1..], scheds := Moved(s, s.work[0], Held(w)))
    case Run(w) =>
      var pc := s.workers[w].pc;
      SetWorker(Executed(s, pc.item), w, if pc.draining then Draining else Idle)
    case Expire(w) => SetWorker(s, w, Exiting)
    case SeeKill(w) => SetWorker(s, w, if c.noCork then Exiting else Draining)
    case QueueEmpty(w) => SetWorker(s, w, Exiting)
    case FreeToken(w) => SetWorker(s.(sem := if c.maxWorkers > 0 then s.sem - 1 else s.sem), w, TokenFreed)
    case LeaveGroup(w) => SetWorker(s.(wg := s.wg - 1), w, Left)
    case Kill => s.(killed := true, closer := Waiting)
    case AllLeft => s.(closer := if c.noCork || c.queueSize == 0 then Closed else Filling(0))
    case Put => s.(work := s.work + [Stub], closer := Filling(s.closer.i + 1))
    case Blocked => s.(closer := Emptying(0))
    case TakeOut =>
      (if s.work[0].Stub? then s else Executed(s, s.work[0])).(work := s.work[1..], closer := Emptying(s.closer.j + 1))
    case PassOver => s.(closer := Filling(0))
    case FullOfStubs => s.(closer := Closed)
  }

  // ---------------------------------------------------------------------------------------------
  // The invariant
  // ---------------------------------------------------------------------------------------------

  /** Every task is in at most one place, and in exactly one once its scheduler returned nil. */
  ghost predicate Tasks(s: State) {
    && (forall id :: id in s.scheds ==> (s.scheds[id].pc == Ok <==> s.scheds[id].at != Nowhere))
    && InQueue(s) && HasRun(s) && Holders(s)
  }

  ghost predicate InQueue(s: State) {
    forall id :: multiset(s.work)[Job(id)] == (if id in s.scheds && s.scheds[id].at == Queued then 1 else 0)
  }

  ghost predicate HasRun(s: State) {
    forall id :: s.ran[id] == (if id in s.scheds && s.scheds[id].at == Ran then 1 else 0)
  }

  ghost predicate Holders(s: State) {
    && (forall w :: w in s.workers && s.workers[w].pc.Running? ==>
          (s.workers[w].pc.item.Job? && s.workers[w].pc.item.id in s.scheds &&
           s.scheds[s.workers[w].pc.item.id].at == Held(w)))
    && (forall id :: id in s.scheds && s.scheds[id].at.Held? ==> Holds(s, s.scheds[id].at.w, id))
  }

  ghost predicate Holds(s: State, w: WorkerId, id: TaskId) {
    w in s.workers && s.workers[w].pc.Running? && s.workers[w].pc.item == Job(id)
  }

  ghost function Live(s: State): set<WorkerId> {
    set w | w in s.workers && s.workers[w].pc != Left
  }

  /** Workers that have not given their token back. */
  ghost function Working(s: State): set<WorkerId> {
    set w | w in s.workers && s.workers[w].pc != Left && s.workers[w].pc != TokenFreed
  }

  /** Schedulers between taking a token and handing it to a worker or back. */
  ghost function Holding(s: State): set<TaskId> {
    set id | id in s.scheds && (s.scheds[id].pc == Spawning || s.scheds[id].pc == Releasing)
  }

  ghost predicate Counters(c: Config, s: State) {
    && s.wg == |Live(s)|
    && (c.maxWorkers > 0 ==> s.sem == |Working(s)| + |Holding(s)| && s.sem <= c.maxWorkers)
  }

  ghost predicate Queue(c: Config, s: State) {
    && |s.work| <= c.queueSize
    && !s.stubRan
    && (s.closer == Open <==> !s.killed)
    && (s.closer != Open && s.closer != Waiting ==> s.wg == 0)
    && (s.closer == Open || s.closer == Waiting ==> Stub !in s.work)
    && (s.closer.Filling? ==> s.closer.i <= c.queueSize && multiset(s.work)[Stub] >= s.closer.i)
    && (s.closer.Emptying? ==> s.closer.j <= c.queueSize <= |s.work| + s.closer.j)
    && (s.closer == Closed && !c.noCork ==> multiset(s.work)[Stub] == |s.work| == c.queueSize)
  }

  ghost predicate Inv(c: Config, s: State) {
    Tasks(s) && Counters(c, s) && Queue(c, s)
  }

  lemma {:induction false} UnstoppableCount(n: nat)
    ensures |Unstoppable(n)| == n && forall w: nat :: w in Unstoppable(n) <==> w < n
    ensures forall w :: w in Unstoppable(n) ==> Unstoppable(n)[w] == Worker(Idle, false)
  {
    if n > 0 {
      UnstoppableCount(n - 1);
    }
  }

  lemma InitInv(c: Config)
    requires Accepted(c)
    ensures Inv(c, Init(c))
  {
    var s := Init(c);
    UnstoppableCount(c.unstoppable);
    assert Live(s) == s.workers.Keys && Working(s) == s.workers.Keys && Holding(s) == {};
    assert |s.workers.Keys| == |s.workers|;
  }

  // ---- tasks -----------------------------------------------------------------------------------

  /** Steps that change no task's place. */
  lemma TasksFrame(s: State, s': State)
    requires Tasks(s) && s'.ran == s.ran
    requires forall id :: multiset(s'.work)[Job(id)] == multiset(s.work)[Job(id)]
    requires s.scheds.Keys <= s'.scheds.Keys
    requires forall id :: id in s.scheds ==>
      (s'.scheds[id].at == s.scheds[id].at && (s'.scheds[id].pc == Ok <==> s.scheds[id].pc == Ok))
    requires forall id :: id in s'.scheds && id !in s.scheds ==> s'.scheds[id].at == Nowhere && s'.scheds[id].pc != Ok
    requires forall w :: w in s.workers && s.workers[w].pc.Running? ==>
      w in s'.workers && s'.workers[w].pc == s.workers[w].pc
    requires forall w :: w in s'.workers && s'.workers[w].pc.Running? ==>
      w in s.workers && s'.workers[w].pc == s.workers[w].pc
    ensures Tasks(s')
  {
    forall id | id in s'.scheds && s'.scheds[id].at.Held? ensures Holds(s', s'.scheds[id].at.w, id) {
      assert Holds(s, s.scheds[id].at.w, id);
    }
  }

  predicate MovesTask(s: State, e: Event) {
    e.Enqueue? || e.HandOver? || e.Spawn? || e.Receive? || e.Run? || (e.TakeOut? && s.work != [] && s.work[0].Job?)
  }

  lemma PlainTasks(c: Config, s: State, e: Event)
    requires Tasks(s) && Enabled(c, s, e) && !MovesTask(s, e)
    ensures Tasks(Next(c, s, e))
  {
    if e.Put? || e.TakeOut? {
      StubTasks(c, s, e);
    } else if e.Schedule? || e.SawKill? || e.QueueFull? || e.NoSemaphore? || e.Token? || e.GiveUp? {
      SchedTasks(c, s, e);
    } else if e.SpawnClosed? || e.ReturnToken? {
      TasksFrame(s, Next(c, s, e));
    } else {
      WorkerTasks(c, s, e);
    }
  }

  lemma SchedTasks(c: Config, s: State, e: Event)
    requires Tasks(s) && Enabled(c, s, e)
    requires e.Schedule? || e.SawKill? || e.QueueFull? || e.NoSemaphore? || e.Token? || e.GiveUp?
    ensures Tasks(Next(c, s, e))
  {
    hide Tasks;
    TasksFrame(s, Next(c, s, e));
  }

  lemma StubTasks(c: Config, s: State, e: Event)
    requires Tasks(s) && Enabled(c, s, e) && (e.Put? || (e.TakeOut? && s.work[0].Stub?))
    ensures Tasks(Next(c, s, e))
  {
    hide Tasks;
    if e.TakeOut? {
      PopCount(s.work);
    } else {
      PushCount(s.work, Stub);
    }
    TasksFrame(s, Next(c, s, e));
  }

  lemma WorkerTasks(c: Config, s: State, e: Event)
    requires Tasks(s) && Enabled(c, s, e)
    requires e.Expire? || e.SeeKill? || e.QueueEmpty? || e.FreeToken? || e.LeaveGroup? ||
      e.Kill? || e.AllLeft? || e.Blocked? || e.PassOver? || e.FullOfStubs?
    ensures Tasks(Next(c, s, e))
  {
    hide Tasks;
    TasksFrame(s, Next(c, s, e));
  }

  lemma PopCount(work: seq<Item>)
    requires work != []
    ensures forall x :: multiset(work)[x] == multiset(work[1..])[x] + (if x == work[0] then 1 else 0)
  {
    assert work == [work[0]] + work[1..];
  }

  lemma PushCount(work: seq<Item>, item: Item)
    ensures forall x :: multiset(work + [item])[x] == multiset(work)[x] + (if x == item then 1 else 0)
  {
  }

  lemma EnqueueTasks(c: Config, s: State, id: TaskId)
    requires Tasks(s) && Enabled(c, s, Enqueue(id))
    ensures Tasks(Next(c, s, Enqueue(id)))
  {
    var s' := Next(c, s, Enqueue(id));
    PushCount(s.work, Job(id));
    HoldersFrame(s, s', id);
  }

  /** A task that no worker holds before or after a step leaves the other holders alone. */
  lemma HoldersFrame(s: State, s': State, id: TaskId)
    requires Holders(s)
    requires id in s.scheds && id in s'.scheds && s'.scheds == s.scheds[id := s'.scheds[id]]
    requires !s.scheds[id].at.Held? && !s'.scheds[id].at.Held? && s'.workers == s.workers
    ensures Holders(s')
  {
    forall i | i in s'.scheds && s'.scheds[i].at.Held? ensures Holds(s', s'.scheds[i].at.w, i) {
      assert Holds(s, s.scheds[i].at.w, i);
    }
  }

  /** A scheduler's task goes straight to worker w. */
  lemma HandTasks(s: State, s': State, id: TaskId, w: WorkerId)
    requires Tasks(s) && id in s.scheds && s.scheds[id].pc != Ok
    requires s'.work == s.work && s'.ran == s.ran && s'.scheds == s.scheds[id := Sched(Ok, Held(w))]
    requires w in s.workers ==> !s.workers[w].pc.Running?
    requires w in s'.workers && s'.workers[w].pc.Running? && s'.workers[w].pc.item == Job(id)
    requires s'.workers == s.workers[w := s'.workers[w]]
    ensures Tasks(s')
  {
    forall i | i in s'.scheds && s'.scheds[i].at.Held? ensures Holds(s', s'.scheds[i].at.w, i) {
      assert i != id ==> Holds(s, s.scheds[i].at.w, i);
    }
  }

  lemma ReceiveTasks(c: Config, s: State, w: WorkerId)
    requires Tasks(s) && Enabled(c, s, Receive(w)) && s.work[0].Job?
    ensures Tasks(Next(c, s, Receive(w)))
  {
    hide Holders, InQueue, HasRun;
    var s', id := Next(c, s, Receive(w)), s.work[0].id;
    HeadIsQueued(s);
    HeadLeaves(s, s', id);
    RanFrame(s, s', id);
    ReceiveHolders(s, s', id, w);
  }

  lemma HeadIsQueued(s: State)
    requires InQueue(s) && s.work != [] && s.work[0].Job?
    ensures s.work[0].id in s.scheds && s.scheds[s.work[0].id].at == Queued
  {
    assert s.work[0] in multiset(s.work);
  }

  lemma HeadLeaves(s: State, s': State, id: TaskId)
    requires InQueue(s) && s.work != [] && s.work[0] == Job(id) && s'.work == s.work[1..]
    requires id in s.scheds && s.scheds[id].at == Queued
    requires id in s'.scheds && s'.scheds == s.scheds[id := s'.scheds[id]] && s'.scheds[id].at != Queued
    ensures InQueue(s')
  {
    PopCount(s.work);
  }

  /** A task that has not run either stays so or is counted as it runs. */
  lemma RanFrame(s: State, s': State, id: TaskId)
    requires HasRun(s) && id in s.scheds && s.scheds[id].at != Ran
    requires id in s'.scheds && s'.scheds == s.scheds[id := s'.scheds[id]]
    requires s'.ran == if s'.scheds[id].at == Ran then s.ran + multiset{id} else s.ran
    ensures HasRun(s')
  {
  }

  lemma ReceiveHolders(s: State, s': State, id: TaskId, w: WorkerId)
    requires Holders(s) && id in s.scheds && !s.scheds[id].at.Held?
    requires id in s'.scheds && s'.scheds == s.scheds[id := s'.scheds[id]] && s'.scheds[id].at == Held(w)
    requires w in s.workers && w in s'.workers && s'.workers == s.workers[w := s'.workers[w]]
    requires !s.workers[w].pc.Running? && s'.workers[w].pc.Running? && s'.workers[w].pc.item == Job(id)
    ensures Holders(s')
  {
    forall i | i in s'.scheds && s'.scheds[i].at.Held? ensures Holds(s', s'.scheds[i].at.w, i) {
      assert i != id ==> Holds(s, s.scheds[i].at.w, i);
    }
  }

  lemma RunTasks(c: Config, s: State, w: WorkerId)
    requires Tasks(s) && Enabled(c, s, Run(w))
    ensures Tasks(Next(c, s, Run(w))) && !(s.workers[w].pc.item.Stub?)
  {
    var s', id := Next(c, s, Run(w)), s.workers[w].pc.item.id;
    forall i | i in s'.scheds && s'.scheds[i].at.Held? ensures Holds(s', s'.scheds[i].at.w, i) {
      assert Holds(s, s.scheds[i].at.w, i);
    }
  }

  lemma TakeOutTasks(c: Config, s: State)
    requires Tasks(s) && Enabled(c, s, TakeOut) && s.work[0].Job?
    ensures Tasks(Next(c, s, TakeOut))
  {
    hide Holders, InQueue, HasRun;
    var s', id := Next(c, s, TakeOut), s.work[0].id;
    HeadIsQueued(s);
    HeadLeaves(s, s', id);
    RanFrame(s, s', id);
    HoldersFrame(s, s', id);
  }

  // ---- counters --------------------------------------------------------------------------------

  /** Steps that keep the three counted sets. */
  lemma CountersFrame(c: Config, s: State, s': State)
    requires Counters(c, s) && s'.wg == s.wg && s'.sem == s.sem
    requires Live(s') == Live(s) && Working(s') == Working(s) && Holding(s') == Holding(s)
    ensures Counters(c, s')
  {
  }

  predicate MovesCounter(e: Event) {
    e.NoSemaphore? || e.Token? || e.Spawn? || e.SpawnClosed? || e.ReturnToken? || e.FreeToken? || e.LeaveGroup?
  }

  lemma PlainCounters(c: Config, s: State, e: Event)
    requires Counters(c, s) && Enabled(c, s, e) && !MovesCounter(e)
    ensures Counters(c, Next(c, s, e))
  {
    hide Live, Working, Holding, Enabled;
    PlainWorkers(c, s, e);
    PlainHolding(c, s, e);
    CountersFrame(c, s, Next(c, s, e));
  }

  lemma PlainWorkers(c: Config, s: State, e: Event)
    requires Enabled(c, s, e) && !MovesCounter(e)
    ensures Live(Next(c, s, e)) == Live(s) && Working(Next(c, s, e)) == Working(s)
  {
    hide Live, Working;
    if e.HandOver? || e.Receive? || e.Run? || e.Expire? || e.SeeKill? || e.QueueEmpty? {
      StillWorking(s, Next(c, s, e), e.w);
    } else {
      SameWorkers(s, Next(c, s, e));
    }
  }

  /** A worker that keeps its token stays counted. */
  lemma StillWorking(s: State, s': State, w: WorkerId)
    requires w in s.workers && s.workers[w].pc != TokenFreed && s.workers[w].pc != Left
    requires w in s'.workers && s'.workers == s.workers[w := s'.workers[w]]
    requires s'.workers[w].pc != TokenFreed && s'.workers[w].pc != Left
    ensures Live(s') == Live(s) && Working(s') == Working(s)
  {
  }

  lemma PlainHolding(c: Config, s: State, e: Event)
    requires Enabled(c, s, e) && !MovesCounter(e)
    ensures Holding(Next(c, s, e)) == Holding(s)
  {
  }

  lemma MovedCounters(c: Config, s: State, e: Event)
    requires Counters(c, s) && Enabled(c, s, e) && MovesCounter(e)
    ensures Counters(c, Next(c, s, e))
  {
    match e
    case Token(id) => TokenCounters(c, s, id);
    case Spawn(id, w) => SpawnCounters(c, s, id, w);
    case ReturnToken(id) => ReturnCounters(c, s, id);
    case FreeToken(w) => FreeCounters(c, s, w);
    case LeaveGroup(w) => LeaveCounters(c, s, w);
    case _ => ClosedCounters(c, s, e);
  }

  lemma ClosedCounters(c: Config, s: State, e: Event)
    requires Counters(c, s) && Enabled(c, s, e) && (e.NoSemaphore? || e.SpawnClosed?)
    ensures Counters(c, Next(c, s, e))
  {
    var s' := Next(c, s, e);
    assert Live(s') == Live(s) && Working(s') == Working(s);
    assert c.maxWorkers > 0 ==> Holding(s') == Holding(s);
  }

  lemma TokenCounters(c: Config, s: State, id: TaskId)
    requires Counters(c, s) && Enabled(c, s, Token(id))
    ensures Counters(c, Next(c, s, Token(id)))
  {
    hide Live, Working, Holding;
    var s' := Next(c, s, Token(id));
    SameWorkers(s, s');
    SchedMoves(s, s', id);
  }

  lemma SpawnCounters(c: Config, s: State, id: TaskId, w: WorkerId)
    requires Counters(c, s) && Enabled(c, s, Spawn(id, w))
    ensures Counters(c, Next(c, s, Spawn(id, w)))
  {
    hide Live, Working, Holding;
    var s' := Next(c, s, Spawn(id, w));
    WorkerMoves(s, s', w);
    SchedMoves(s, s', id);
  }

  lemma ReturnCounters(c: Config, s: State, id: TaskId)
    requires Counters(c, s) && Enabled(c, s, ReturnToken(id))
    ensures Counters(c, Next(c, s, ReturnToken(id)))
  {
    hide Live, Working, Holding;
    var s' := Next(c, s, ReturnToken(id));
    SameWorkers(s, s');
    SchedMoves(s, s', id);
  }

  lemma FreeCounters(c: Config, s: State, w: WorkerId)
    requires Counters(c, s) && Enabled(c, s, FreeToken(w))
    ensures Counters(c, Next(c, s, FreeToken(w)))
  {
    hide Live, Working, Holding;
    var s' := Next(c, s, FreeToken(w));
    WorkerMoves(s, s', w);
    SameScheds(s, s');
  }

  lemma LeaveCounters(c: Config, s: State, w: WorkerId)
    requires Counters(c, s) && Enabled(c, s, LeaveGroup(w))
    ensures Counters(c, Next(c, s, LeaveGroup(w)))
  {
    hide Live, Working, Holding;
    var s' := Next(c, s, LeaveGroup(w));
    WorkerMoves(s, s', w);
    SameScheds(s, s');
  }

  lemma SameWorkers(s: State, s': State)
    requires s'.workers == s.workers
    ensures Live(s') == Live(s) && Working(s') == Working(s)
  {
  }

  lemma SameScheds(s: State, s': State)
    requires s'.scheds == s.scheds
    ensures Holding(s') == Holding(s)
  {
  }

  /** One worker changes or is new: the counted sets change by it only. */
  lemma WorkerMoves(s: State, s': State, w: WorkerId)
    requires w in s'.workers && s'.workers == s.workers[w := s'.workers[w]]
    ensures |Live(s')| == |Live(s)| + Bit(s'.workers[w].pc != Left) - Bit(w in s.workers && s.workers[w].pc != Left)
    ensures |Working(s')| == |Working(s)|
      + Bit(s'.workers[w].pc != Left && s'.workers[w].pc != TokenFreed)
      - Bit(w in s.workers && s.workers[w].pc != Left && s.workers[w].pc != TokenFreed)
  {
    OneDiffers(Live(s), Live(s'), w);
    OneDiffers(Working(s), Working(s'), w);
  }

  lemma SchedMoves(s: State, s': State, id: TaskId)
    requires id in s'.scheds && s'.scheds == s.scheds[id := s'.scheds[id]]
    ensures |Holding(s')| == |Holding(s)|
      + Bit(s'.scheds[id].pc == Spawning || s'.scheds[id].pc == Releasing)
      - Bit(id in s.scheds && (s.scheds[id].pc == Spawning || s.scheds[id].pc == Releasing))
  {
    OneDiffers(Holding(s), Holding(s'), id);
  }

  // ---- queue -----------------------------------------------------------------------------------

  lemma NobodyLeft(c: Config, s: State)
    requires Counters(c, s) && s.wg == 0
    ensures forall w :: w in s.workers ==> s.workers[w].pc == Left
  {
    forall w | w in s.workers ensures s.workers[w].pc == Left {
      assert Live(s) == {};
      assert w !in Live(s);
    }
  }

  lemma QueueStep(c: Config, s: State, e: Event)
    requires Inv(c, s) && Enabled(c, s, e)
    ensures Queue(c, Next(c, s, e))
  {
    hide InQueue, HasRun;
    if e.Put? || e.Blocked? || e.TakeOut? || e.PassOver? || e.FullOfStubs? {
      CorkQueue(c, s, e);
    } else if e.Receive? || e.HandOver? || e.Run? {
      if s.wg == 0 { NobodyLeft(c, s); }
      WorkerQueue(c, s, e);
    } else {
      PlainQueue(c, s, e);
    }
  }

  lemma CorkQueue(c: Config, s: State, e: Event)
    requires Queue(c, s) && Enabled(c, s, e)
    requires e.Put? || e.Blocked? || e.TakeOut? || e.PassOver? || e.FullOfStubs?
    ensures Queue(c, Next(c, s, e))
  {
    match e
    case Put => PushCount(s.work, Stub);
    case TakeOut => TakeOutQueue(c, s);
    case FullOfStubs => StubsOnly(s.work, c.queueSize);
    case _ =>
  }

  lemma TakeOutQueue(c: Config, s: State)
    requires Queue(c, s) && Enabled(c, s, TakeOut)
    ensures Queue(c, Next(c, s, TakeOut))
  {
  }

  /** Workers take from the queue only while it holds no stub. */
  lemma WorkerQueue(c: Config, s: State, e: Event)
    requires Queue(c, s) && Enabled(c, s, e) && (e.Receive? || e.HandOver? || e.Run?)
    requires s.wg == 0 ==> forall w :: w in s.workers ==> s.workers[w].pc == Left
    requires e.Run? ==> s.workers[e.w].pc.item.Job?
    ensures Queue(c, Next(c, s, e))
  {
  }

  lemma PlainQueue(c: Config, s: State, e: Event)
    requires Queue(c, s) && Enabled(c, s, e)
    requires !(e.Put? || e.Blocked? || e.TakeOut? || e.PassOver? || e.FullOfStubs?)
    requires !(e.Receive? || e.HandOver? || e.Run?)
    ensures Queue(c, Next(c, s, e))
  {
    if e.Enqueue? {
      PushCount(s.work, Job(e.id));
    } else if !e.Kill? && !e.AllLeft? {
      hide Queue;
      QueueFrame(c, s, Next(c, s, e));
    }
  }

  /** Steps that leave queue and Close alone, and let the wait group grow only before kill. */
  lemma QueueFrame(c: Config, s: State, s': State)
    requires Queue(c, s) && s'.work == s.work && s'.stubRan == s.stubRan
    requires s'.killed == s.killed && s'.closer == s.closer && (s.killed ==> s'.wg <= s.wg)
    ensures Queue(c, s')
  {
  }

  lemma StubsOnly(work: seq<Item>, n: nat)
    requires |work| <= n <= multiset(work)[Stub]
    ensures multiset(work)[Stub] == |work| == n
  {
    assert |multiset(work)| == |work|;
    assert multiset(work)[Stub] <= |multiset(work)|;
  }

  lemma StepKeeps(c: Config, s: State, e: Event)
    requires Inv(c, s) && Enabled(c, s, e)
    ensures Inv(c, Next(c, s, e))
  {
    QueueStep(c, s, e);
    if MovesCounter(e) { MovedCounters(c, s, e); } else { PlainCounters(c, s, e); }
    TasksStep(c, s, e);
  }

  lemma TasksStep(c: Config, s: State, e: Event)
    requires Inv(c, s) && Enabled(c, s, e)
    ensures Tasks(Next(c, s, e))
  {
    hide InQueue, HasRun, Holders, Queue, Counters;
    if !MovesTask(s, e) {
      PlainTasks(c, s, e);
    } else {
      var s' := Next(c, s, e);
      match e
      case Enqueue(id) => EnqueueTasks(c, s, id);
      case HandOver(id, w) => HandTasks(s, s', id, w);
      case Spawn(id, w) => HandTasks(s, s', id, w);
      case Receive(w) =>
        WorkersSeeNoStub(c, s, w);
        ReceiveTasks(c, s, w);
      case Run(w) => RunTasks(c, s, w);
      case TakeOut => TakeOutTasks(c, s);
    }
  }

  lemma WorkersSeeNoStub(c: Config, s: State, w: WorkerId)
    requires Counters(c, s) && Queue(c, s) && w in s.workers && s.workers[w].pc != Left
    ensures Stub !in s.work
  {
    if s.wg == 0 {
      NobodyLeft(c, s);
    }
  }

  // ---------------------------------------------------------------------------------------------
  // Runs
  // ---------------------------------------------------------------------------------------------

  ghost predicate Behaviour(c: Config, ss: seq<State>, es: seq<Event>) {
    && Accepted(c) && |ss| == |es| + 1 && ss[0] == Init(c)
    && forall i :: 0 <= i < |es| ==> (Enabled(c, ss[i], es[i]) && ss[i + 1] == Next(c, ss[i], es[i]))
  }

  lemma {:induction false} RunInv(c: Config, ss: seq<State>, es: seq<Event>, i: nat)
    requires Behaviour(c, ss, es) && i < |ss|
    ensures Inv(c, ss[i])
    decreases i
  {
    hide Inv, Enabled, Next, Init;
    if i == 0 {
      InitInv(c);
    } else {
      RunInv(c, ss, es, i - 1);
      StepKeeps(c, ss[i - 1], es[i - 1]);
    }
  }

  /**
   When done is closed, every task whose scheduler returned nil has run exactly once and no other task
   has run; the queue holds stubs only, so nothing can be queued any more, and no stub ever ran.
   */
  lemma DoneMeansAllRan(c: Config, ss: seq<State>, es: seq<Event>, i: nat, id: TaskId)
    requires Behaviour(c, ss, es) && i < |ss| && ss[i].closer == Closed && !c.noCork
    ensures ss[i].ran[id] == (if SchedAt(ss[i], id, Ok) then 1 else 0)
    ensures |ss[i].work| == c.queueSize && forall k :: 0 <= k < |ss[i].work| ==> ss[i].work[k] == Stub
    ensures !ss[i].stubRan && ss[i].wg == 0
  {
    RunInv(c, ss, es, i);
    var s := ss[i];
    NobodyLeft(c, s);
    OnlyStubs(s.work);
    assert Job(id) !in s.work;
    assert multiset(s.work)[Job(id)] == 0;
    assert SchedAt(s, id, Ok) && s.scheds[id].at.Held? ==> Holds(s, s.scheds[id].at.w, id);
  }

  lemma {:induction false} OnlyStubs(work: seq<Item>)
    requires multiset(work)[Stub] == |work|
    ensures forall k :: 0 <= k < |work| ==> work[k] == Stub
    decreases |work|
  {
    if work != [] {
      PopCount(work);
      assert |multiset(work[1..])| == |work[1..]|;
      assert multiset(work[1..])[Stub] <= |multiset(work[1..])|;
      OnlyStubs(work[1..]);
      assert forall k :: 1 <= k < |work| ==> work[k] == work[1..][k - 1];
    }
  }

  /** No task ever runs twice, and none runs whose scheduler failed or has not returned. */
  lemma NeverTwice(c: Config, ss: seq<State>, es: seq<Event>, i: nat, id: TaskId)
    requires Behaviour(c, ss, es) && i < |ss|
    ensures ss[i].ran[id] <= 1 && (ss[i].ran[id] == 1 ==> SchedAt(ss[i], id, Ok))
  {
    RunInv(c, ss, es, i);
  }

  /** Tokens are exactly those of live workers and of schedulers about to spawn, within the limit. */
  lemma TokensAccounted(c: Config, ss: seq<State>, es: seq<Event>, i: nat)
    requires Behaviour(c, ss, es) && i < |ss| && c.maxWorkers > 0
    ensures ss[i].sem == |Working(ss[i])| + |Holding(ss[i])| <= c.maxWorkers
    ensures ss[i].wg == |Live(ss[i])|
  {
    RunInv(c, ss, es, i);
  }

  /** Giving a token back, leaving the wait group and draining a corked queue never block. */
  lemma ExitsNeverBlock(c: Config, ss: seq<State>, es: seq<Event>, i: nat)
    requires Behaviour(c, ss, es) && i < |ss|
    ensures forall w :: WorkerAt(ss[i], w, Exiting) ==> Enabled(c, ss[i], FreeToken(w))
    ensures forall w :: WorkerAt(ss[i], w, TokenFreed) ==> Enabled(c, ss[i], LeaveGroup(w))
    ensures forall id :: SchedAt(ss[i], id, Releasing) ==> Enabled(c, ss[i], ReturnToken(id))
    ensures ss[i].closer.Emptying? && ss[i].closer.j < c.queueSize ==> Enabled(c, ss[i], TakeOut)
  {
    RunInv(c, ss, es, i);
    var s := ss[i];
    forall w | WorkerAt(s, w, Exiting) ensures Enabled(c, s, FreeToken(w)) {
      assert w in Working(s);
    }
    forall w | WorkerAt(s, w, TokenFreed) ensures Enabled(c, s, LeaveGroup(w)) {
      assert w in Live(s);
    }
    forall id | SchedAt(s, id, Releasing) ensures Enabled(c, s, ReturnToken(id)) {
      assert id in Holding(s);
    }
  }

  /** Once kill is closed the wait group never grows, so waiting for it is safe. */
  lemma {:induction false} GroupNeverGrows(c: Config, ss: seq<State>, es: seq<Event>, i: nat, j: nat)
    requires Behaviour(c, ss, es) && i <= j < |ss| && ss[i].killed
    ensures ss[j].killed && ss[j].wg <= ss[i].wg
    decreases j
  {
    hide Enabled, Next, Init;
    if i < j {
      GroupNeverGrows(c, ss, es, i, j - 1);
      GroupStep(c, ss[j - 1], es[j - 1]);
    }
  }

  lemma GroupStep(c: Config, s: State, e: Event)
    requires Enabled(c, s, e) && s.killed
    ensures Next(c, s, e).killed && Next(c, s, e).wg <= s.wg
  {
  }

  // ---- progress of Close -----------------------------------------------------------------------

  /** A worker that has not left can always take a step once the pool is killed. */
  lemma WorkerCanStep(c: Config, ss: seq<State>, es: seq<Event>, i: nat, w: WorkerId) returns (e: Event)
    requires Behaviour(c, ss, es) && i < |ss| && ss[i].killed && w in ss[i].workers && ss[i].workers[w].pc != Left
    ensures Enabled(c, ss[i], e)
    ensures e in {Run(w), SeeKill(w), Receive(w), QueueEmpty(w), FreeToken(w), LeaveGroup(w)}
  {
    var s := ss[i];
    ExitsNeverBlock(c, ss, es, i);
    match s.workers[w].pc
    case Running(_, _) => e := Run(w);
    case Idle => e := SeeKill(w);
    case Draining => e := if s.work != [] then Receive(w) else QueueEmpty(w);
    case Exiting =>
      assert WorkerAt(s, w, Exiting);
      e := FreeToken(w);
    case TokenFreed =>
      assert WorkerAt(s, w, TokenFreed);
      e := LeaveGroup(w);
  }

  predicate Corking(e: Event) { e.Put? || e.Blocked? || e.TakeOut? || e.PassOver? || e.FullOfStubs? }

  predicate Corks(s: State) { s.closer.Filling? || s.closer.Emptying? || s.closer == Closed }

  /** The steps of `n` more passes over the queue. */
  function Passes(c: Config, n: int): nat {
    if n <= 0 then 0 else Passes(c, n - 1) + 2 * c.queueSize + 2
  }

  /** Items in the queue that Close will have to take out in a further pass. */
  function Foreign(c: Config, s: State): int {
    match s.closer
    case Filling(i) => |s.work| - i
    case Emptying(j) => |s.work| + j - c.queueSize
    case _ => 0
  }

  /** Steps Close may still need: those of the current pass and one pass for every foreign item. */
  function CorkRank(c: Config, s: State): int {
    match s.closer
    case Filling(i) => Passes(c, Foreign(c, s)) + c.queueSize - i + 1
    case Emptying(j) => Passes(c, Foreign(c, s)) + 2 * c.queueSize - j + 2
    case _ => 0
  }

  /** While the queue is being corked a step of Close is always possible. */
  lemma CorkNeverBlocks(c: Config, s: State) returns (e: Event)
    requires Queue(c, s) && Corks(s) && s.closer != Closed
    ensures Corking(e) && Enabled(c, s, e)
  {
    match s.closer
    case Filling(i) => e := if i == c.queueSize then FullOfStubs else if |s.work| < c.queueSize then Put else Blocked;
    case Emptying(j) => e := if j == c.queueSize then PassOver else TakeOut;
  }

  /** A step of Close brings it closer to its end; a task queued in between costs at most one pass. */
  lemma CorkStep(c: Config, s: State, e: Event)
    requires Inv(c, s) && Enabled(c, s, e) && Corks(s)
    ensures Corks(Next(c, s, e))
    ensures CorkRank(c, Next(c, s, e)) + Bit(Corking(e)) <= CorkRank(c, s) + Passes(c, Bit(e.Enqueue?))
  {
    hide InQueue, HasRun, Holders;
    NobodyLeft(c, s);
    if Corking(e) {
      CorkLowers(c, s, e);
    } else if e.Enqueue? {
      assert Foreign(c, Next(c, s, e)) == Foreign(c, s) + Bit(s.closer != Closed);
    } else {
      hide Passes;
      CorkWaits(c, s, e);
    }
  }

  lemma CorkLowers(c: Config, s: State, e: Event)
    requires Queue(c, s) && Enabled(c, s, e) && Corking(e)
    ensures Corks(Next(c, s, e)) && CorkRank(c, Next(c, s, e)) < CorkRank(c, s)
  {
    assert e.Blocked? ==> Foreign(c, Next(c, s, e)) == 0;
    assert e.Put? || e.TakeOut? || e.PassOver? ==> Foreign(c, Next(c, s, e)) == Foreign(c, s);
  }

  lemma CorkWaits(c: Config, s: State, e: Event)
    requires Enabled(c, s, e) && !Corking(e) && !e.Enqueue? && Corks(s) && Queue(c, s)
    requires forall w :: w in s.workers ==> s.workers[w].pc == Left
    ensures Next(c, s, e).work == s.work && Next(c, s, e).closer == s.closer
  {
  }

  function CorkSteps(es: seq<Event>, i: nat, j: nat): nat
    requires i <= j <= |es|
  {
    if i == j then 0 else CorkSteps(es, i, j - 1) + Bit(Corking(es[j - 1]))
  }

  function Enqueues(es: seq<Event>, i: nat, j: nat): nat
    requires i <= j <= |es|
  {
    if i == j then 0 else Enqueues(es, i, j - 1) + Bit(es[j - 1].Enqueue?)
  }

  /** In every run Close corks the queue within the passes of the foreign items and of the tasks queued late. */
  lemma {:induction false} CorkEnds(c: Config, ss: seq<State>, es: seq<Event>, i: nat, j: nat)
    requires Behaviour(c, ss, es) && i <= j <= |es| && Corks(ss[i])
    ensures Corks(ss[j]) && CorkRank(c, ss[j]) >= 0
    ensures CorkSteps(es, i, j) + CorkRank(c, ss[j]) <= CorkRank(c, ss[i]) + Passes(c, Enqueues(es, i, j))
    decreases j
  {
    hide Enabled, Next, Tasks, Counters, Queue, CorkRank, Corks, Corking, Passes;
    RunInv(c, ss, es, j);
    RankIsNat(c, ss[j]);
    if i < j {
      CorkEnds(c, ss, es, i, j - 1);
      RunInv(c, ss, es, j - 1);
      CorkStep(c, ss[j - 1], es[j - 1]);
      OneMorePass(c, Enqueues(es, i, j - 1), es[j - 1].Enqueue?);
    }
  }

  lemma OneMorePass(c: Config, n: nat, b: bool)
    ensures Passes(c, n + Bit(b)) == Passes(c, n) + Passes(c, Bit(b))
  {
  }

  lemma RankIsNat(c: Config, s: State)
    requires Queue(c, s)
    ensures CorkRank(c, s) >= 0
  {
  }
}
