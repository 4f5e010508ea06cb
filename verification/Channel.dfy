/**
 Call, Drop, Hijack and Shutdown of a channel as interleaved steps.

 A section of the program that holds the channel's or the store's mutex is one step; everything else
 interleaves freely. A callback taken out of the store runs in a later step of its own. The packet
 reader, timers and contexts are nondeterministic: any reply may arrive, any wait may give up, any send
 may fail at any time. Sync numbers wrap around and may be reused.
 */
module Channel {
  import opened Common
  import opened Counting
  import opened Pending

  type CallId = nat
  type FnId = nat

  datatype Error = Stopped | Hijacked | Timeout | ContextDone | DroppedConn

  /** What a callback delivers, with the code of the store entry it was taken from. */
  datatype Result = Reply(code: Code, data: nat) | Failure(code: Code, err: Error)

  /** Program counter of Call. */
  datatype Pc =
    | Acquired                  // holds a result function
    | Filed                     // pushed, has not looked at the stopped flag
    | Sending                   // passed the stopped check
    | SendFailed(err: Error)    // send returned an error; must resolve its own entry
    | Waiting                   // in the select over result, timer and context
    | GivingUp(err: Error)      // timer or context fired; must resolve its own entry
    | Receiving                 // blocked on the result slot
    | Received(res: Result)     // about to release the result function
    | Finished(res: Result)

  /** Where the one callback invocation of a call is. An auxiliary variable, never read by a guard. */
  datatype Where = Nowhere | InHash | Firing(res: Result) | InSlot(res: Result) | Taken

  datatype Call = Call(msg: U32, fn: FnId, code: Code, pc: Pc, at: Where, passed: bool, fired: nat, taken: nat)

  datatype Fire = Fire(fn: FnId, res: Result)

  datatype Shut = Idle | Callbacks | Awaiting(ch: Option<nat>) | Drained | StopperClosed

  datatype State = State(
    store: StoreState<FnId>,
    slots: map<FnId, seq<Result>>,  // the one-slot channel of each result function ever made
    pool: set<FnId>,                // released result functions
    firing: multiset<Fire>,         // callbacks taken out of the store and not yet run
    calls: map<CallId, Call>,
    owner: map<FnId, CallId>,       // which call holds a result function; auxiliary
    stopped: bool, dropped: bool, hijacked: bool,
    dropping: bool,                 // Drop holds the channel mutex
    stopperCloses: nat,
    shut: Shut)

  const Init := State(
    StoreState(map[], 0, None, 0, multiset{}), map[], {}, multiset{}, map[], map[],
    false, false, false, false, 0, Idle)

  datatype Event =
    | Acquire(id: CallId, fn: FnId, msg: U32)
    | Push(id: CallId, sync: U32)
    | Check(id: CallId)
    | SendOk(id: CallId)
    | SendFail(id: CallId, err: Error)
    | ResolveOwn(id: CallId)
    | GiveUp(id: CallId, err: Error)
    | Take(id: CallId)
    | Release(id: CallId)
    | Packet(code: Code, data: nat)
    | RunCallback(fire: Fire)
    | DropLock
    | DropReject
    | Hijack
    | ShutLock
    | ShutEmpty
    | ShutPass
    | ShutStop

  ghost predicate Enabled(s: State, e: Event) {
    match e
    case Acquire(id, fn, _) => id !in s.calls && (fn in s.pool || fn !in s.slots)
    case Push(id, sync) =>
      id in s.calls && s.calls[id].pc == Acquired && FirstFree(s.store, s.calls[id].msg, sync)
    case Check(id) => id in s.calls && s.calls[id].pc == Filed && !s.dropping
    case SendOk(id) => id in s.calls && s.calls[id].pc == Sending
    case SendFail(id, err) =>
      id in s.calls && s.calls[id].pc == Sending && err in {Error.Stopped, Timeout, ContextDone}
    case ResolveOwn(id) => id in s.calls && (s.calls[id].pc.SendFailed? || s.calls[id].pc.GivingUp?)
    case GiveUp(id, err) => id in s.calls && s.calls[id].pc == Waiting && err in {Timeout, ContextDone}
    case Take(id) =>
      && id in s.calls && s.calls[id].pc in {Waiting, Receiving}
      && s.calls[id].fn in s.slots && s.slots[s.calls[id].fn] != []
    case Release(id) => id in s.calls && s.calls[id].pc.Received? && s.calls[id].fn in s.slots
    case Packet(_, _) => true
    // A send into the one-slot channel blocks while the slot is full.
    case RunCallback(fire) => fire in s.firing && fire.fn in s.slots && s.slots[fire.fn] == []
    case DropLock => !s.dropped && !s.dropping
    case DropReject => s.dropping
    case Hijack => !s.stopped && !s.hijacked && !s.dropping
    case ShutLock => !s.stopped && !s.dropping
    case ShutEmpty => s.shut == Callbacks
    case ShutPass => s.shut.Awaiting? && (s.shut.ch.None? || s.shut.ch.value in s.store.closed)
    case ShutStop => s.shut == Drained
  }

  /** The call a callback belongs to learns where its invocation is. */
  function Moved(s: State, fn: FnId, at: Where): map<CallId, Call> {
    if fn in s.owner && s.owner[fn] in s.calls then
      var c := s.calls[s.owner[fn]];
      s.calls[s.owner[fn] := c.(at := at, fired := if at.InSlot? then c.fired + 1 else c.fired)]
    else s.calls
  }

  /** store.resolve: takes the entry out and leaves its callback to be run. */
  function DoResolve(s: State, code: Code, res: Result): State {
    if code !in s.store.hash then s
    else
      var fn := s.store.hash[code];
      s.(store := Resolved(s.store, code), firing := s.firing + multiset{Fire(fn, res)},
         calls := Moved(s, fn, Firing(res)))
  }

  function SetPc(s: State, id: CallId, pc: Pc): State
    requires id in s.calls
  {
    s.(calls := s.calls[id := s.calls[id].(pc := pc)])
  }

  /** The callbacks a rejected store leaves to be run. */
  function Rejections(hash: map<Code, FnId>): multiset<Fire> {
    multiset(set k | k in hash :: Fire(hash[k], Failure(k, DroppedConn)))
  }

  function RejectedCalls(s: State): map<CallId, Call> {
    map id | id in s.calls ::
      var c := s.calls[id];
      if c.code in s.store.hash && s.store.hash[c.code] == c.fn && c.at == InHash
      then c.(at := Firing(Failure(c.code, DroppedConn))) else c
  }

  ghost function Next(s: State, e: Event): State
    requires Enabled(s, e)
  {
    match e
    case Acquire(id, fn, msg) =>
      s.(pool := s.pool - {fn}, owner := s.owner[fn := id],
         slots := if fn in s.slots then s.slots else s.slots[fn := []],
         calls := s.calls[id := Call(msg, fn, Code(msg, 0), Acquired, Nowhere, false, 0, 0)])
    case Push(id, sync) =>
      var c := s.calls[id];
      var code := Code(c.msg, sync);
      s.(store := Pushed(s.store, code, c.fn),
         calls := s.calls[id := c.(pc := Filed, code := code, at := InHash)])
    case Check(id) =>
      if s.stopped then SetPc(s, id, SendFailed(Error.Stopped))
      else if s.hijacked then SetPc(s, id, SendFailed(Error.Hijacked))
      else s.(calls := s.calls[id := s.calls[id].(pc := Sending, passed := true)])
    case SendOk(id) => SetPc(s, id, Waiting)
    case SendFail(id, err) => SetPc(s, id, SendFailed(err))
    case ResolveOwn(id) =>
      var c := s.calls[id];
      SetPc(DoResolve(s, c.code, Failure(c.code, c.pc.err)), id, if c.pc.SendFailed? then Waiting else Receiving)
    case GiveUp(id, err) => SetPc(s, id, GivingUp(err))
    case Take(id) =>
      var c := s.calls[id];
      s.(slots := s.slots[c.fn := s.slots[c.fn][1..]],
         calls := s.calls[id := c.(pc := Received(s.slots[c.fn][0]), at := Taken, taken := c.taken + 1)])
    case Release(id) =>
      var c := s.calls[id];
      SetPc(s.(pool := if s.slots[c.fn] == [] then s.pool + {c.fn} else s.pool, owner := s.owner - {c.fn}),
            id, Finished(c.pc.res))
    case Packet(code, data) => DoResolve(s, code, Reply(code, data))
    case RunCallback(fire) =>
      s.(firing := s.firing - multiset{fire}, slots := s.slots[fire.fn := s.slots[fire.fn] + [fire.res]],
         calls := Moved(s, fire.fn, InSlot(fire.res)))
    case DropLock =>
      s.(dropped := true, dropping := true, stopped := true,
         stopperCloses := if s.stopped then s.stopperCloses else s.stopperCloses + 1)
    case DropReject =>
      s.(dropping := false, store := Rejected(s.store), firing := s.firing + Rejections(s.store.hash),
         calls := RejectedCalls(s))
    case Hijack => s.(hijacked := true)
    case ShutLock => s.(stopped := true, shut := Callbacks)
    case ShutEmpty => s.(store := EmptyChan(s.store).0, shut := Awaiting(EmptyChan(s.store).1))
    case ShutPass => s.(shut := Drained)
    case ShutStop => s.(shut := StopperClosed, stopperCloses := s.stopperCloses + 1)
  }

  // ---------------------------------------------------------------------------------------------
  // The invariant
  // ---------------------------------------------------------------------------------------------

  predicate Active(c: Call) { !c.pc.Finished? }

  /** A call's own phase and the place of its callback invocation agree. */
  predicate Phase(c: Call) {
    && (c.pc == Acquired <==> c.at == Nowhere)
    && (c.pc.Received? || c.pc.Finished? <==> c.at == Taken)
    && (c.at == InHash ==> c.pc != Receiving)
    && (c.at == InHash && !c.passed ==> c.pc == Filed || c.pc.SendFailed?)
    && (c.pc == Acquired || c.pc == Filed ==> !c.passed)
    && (c.pc == Sending ==> c.passed)
    && c.fired == (if c.at.InSlot? || c.at == Taken then 1 else 0)
    && c.taken == (if c.at == Taken then 1 else 0)
    && (c.at.Firing? || c.at.InSlot? ==> c.at.res.code == c.code)
    && (c.pc.Received? || c.pc.Finished? ==> c.pc.res.code == c.code)
    && (c.pc != Acquired ==> c.code.msg == c.msg)
  }

  /** Every result function in use has exactly one call, and a pooled one has none. */
  ghost predicate Owned(s: State) {
    && (forall fn :: fn in s.owner ==>
          (s.owner[fn] in s.calls && s.calls[s.owner[fn]].fn == fn && Active(s.calls[s.owner[fn]]) &&
           fn in s.slots && fn !in s.pool))
    && (forall id :: id in s.calls && Active(s.calls[id]) ==>
          (s.calls[id].fn in s.owner && s.owner[s.calls[id].fn] == id))
    && s.pool <= s.slots.Keys
  }

  ghost predicate Phases(s: State) {
    forall id :: id in s.calls ==> Phase(s.calls[id])
  }

  /** The call that holds `fn` exists and its callback invocation is at `at`. */
  ghost predicate HolderAt(s: State, fn: FnId, at: Where) {
    fn in s.owner && s.owner[fn] in s.calls && s.calls[s.owner[fn]].at == at
  }

  /** Store entries, callbacks to be run and filled slots are exactly the places the calls are at. */
  ghost predicate Placed(s: State) {
    HashPlaced(s) && FiringPlaced(s) && SlotsPlaced(s) && CallsLocated(s)
  }

  ghost predicate HashPlaced(s: State) {
    forall k :: k in s.store.hash ==>
      (HolderAt(s, s.store.hash[k], InHash) && s.calls[s.owner[s.store.hash[k]]].code == k)
  }

  ghost predicate FiringPlaced(s: State) {
    forall f :: f in s.firing ==> (s.firing[f] == 1 && HolderAt(s, f.fn, Firing(f.res)))
  }

  ghost predicate SlotsPlaced(s: State) {
    forall fn :: fn in s.slots && s.slots[fn] != [] ==>
      (|s.slots[fn]| == 1 && HolderAt(s, fn, InSlot(s.slots[fn][0])))
  }

  ghost predicate CallsLocated(s: State) {
    forall id :: id in s.calls ==> Located(s, s.calls[id])
  }

  ghost predicate Located(s: State, c: Call) {
    && (c.at == InHash ==> c.code in s.store.hash && s.store.hash[c.code] == c.fn)
    && (c.at.Firing? ==> Fire(c.fn, c.at.res) in s.firing)
    && (c.at.InSlot? ==> c.fn in s.slots && s.slots[c.fn] == [c.at.res])
  }

  /** No call that passed the stopped check still has an entry in the store. */
  ghost predicate NoneInFlight(s: State) {
    forall id :: id in s.calls && s.calls[id].at == InHash ==> !s.calls[id].passed
  }

  ghost predicate Closing(s: State) {
    && GoodStore(s.store)
    && (s.dropped ==> s.stopped) && (s.dropping ==> s.dropped)
    && s.stopperCloses <= 1
    && (!s.stopped ==> s.stopperCloses == 0 && s.shut == Idle)
    && (s.shut == Callbacks || s.shut.Awaiting? || s.shut == Drained ==> s.stopperCloses == 0)
    && (s.dropped && !s.dropping ==> NoneInFlight(s))
    && (s.shut == Drained || s.shut == StopperClosed ==> NoneInFlight(s))
    && (s.shut == Awaiting(None) ==> NoneInFlight(s))
    && (s.shut.Awaiting? && s.shut.ch.Some? ==>
          (s.shut.ch.value in s.store.closed && NoneInFlight(s)) || s.store.emptied == s.shut.ch)
  }

  ghost predicate Inv(s: State) {
    Owned(s) && Phases(s) && Placed(s) && Closing(s)
  }

  lemma InitInv()
    ensures Inv(Init)
  {
  }

  // ---------------------------------------------------------------------------------------------
  // Every step keeps the invariant
  // ---------------------------------------------------------------------------------------------

  /** The calls are the same up to what the predicate in question reads. */
  ghost predicate SameOwners(s: State, s': State) {
    && s'.owner == s.owner && s'.pool == s.pool && s'.slots.Keys == s.slots.Keys && s'.calls.Keys == s.calls.Keys
    && forall id :: id in s.calls ==>
         s'.calls[id].fn == s.calls[id].fn && Active(s'.calls[id]) == Active(s.calls[id])
  }

  lemma OwnedFrame(s: State, s': State)
    requires Owned(s) && SameOwners(s, s')
    ensures Owned(s')
  {
  }

  ghost predicate SamePlaces(s: State, s': State) {
    && s'.owner == s.owner && s'.slots == s.slots && s'.firing == s.firing
    && s'.store.hash == s.store.hash && s'.calls.Keys == s.calls.Keys
    && forall id :: id in s.calls ==>
         s'.calls[id].fn == s.calls[id].fn && s'.calls[id].at == s.calls[id].at && s'.calls[id].code == s.calls[id].code
  }

  lemma PlacedFrame(s: State, s': State)
    requires Placed(s) && SamePlaces(s, s')
    ensures Placed(s')
  {
    assert forall fn, at :: HolderAt(s', fn, at) == HolderAt(s, fn, at);
    assert forall id :: id in s'.calls ==> Located(s', s'.calls[id]) == Located(s, s.calls[id]);
  }

  ghost predicate SameFlags(s: State, s': State) {
    s' == s.(calls := s'.calls, slots := s'.slots, pool := s'.pool, owner := s'.owner, firing := s'.firing)
  }

  lemma ClosingFrame(s: State, s': State)
    requires Closing(s) && SameFlags(s, s')
    requires NoneInFlight(s) ==> NoneInFlight(s')
    ensures Closing(s')
  {
  }

  lemma SetPcKeeps(s: State, id: CallId, pc: Pc)
    requires Inv(s) && id in s.calls && Active(s.calls[id]) && !pc.Finished?
    requires Phase(s.calls[id].(pc := pc))
    ensures Inv(SetPc(s, id, pc))
  {
    hide Owned, Placed, Closing, Phase, NoneInFlight;
    var s' := SetPc(s, id, pc);
    OwnedFrame(s, s');
    PlacedFrame(s, s');
    NoneInFlightFrame(s, s');
    ClosingFrame(s, s');
  }

  lemma NoneInFlightFrame(s: State, s': State)
    requires s'.calls.Keys == s.calls.Keys
    requires forall id :: id in s.calls ==>
      s'.calls[id].passed == s.calls[id].passed && (s'.calls[id].at == InHash ==> s.calls[id].at == InHash)
    ensures NoneInFlight(s) ==> NoneInFlight(s')
  {
  }

  // A step that moves one call: `id`, which holds `fn`, becomes `c`. Everything about other result
  // functions stays, and the new place of `c` is where its callback invocation now is.

  predicate Placeable(at: Where) { at == InHash || at.Firing? || at.InSlot? }

  ghost predicate OthersStay(s: State, s': State, id: CallId, fn: FnId, c: Call) {
    && s'.calls == s.calls[id := c] && c.fn == fn
    && (forall g :: g in s.owner && g != fn ==> (g in s'.owner && s'.owner[g] == s.owner[g] && s.owner[g] != id))
    && (forall i :: i in s.calls && i != id && Placeable(s.calls[i].at) ==> s.calls[i].fn != fn)
    && (Placeable(c.at) ==> fn in s'.owner && s'.owner[fn] == id)
  }

  ghost predicate HashMoves(s: State, s': State, fn: FnId, c: Call) {
    && (forall k :: k in s'.store.hash && s'.store.hash[k] == fn ==> c.at == InHash && k == c.code)
    && (forall k :: k in s'.store.hash && s'.store.hash[k] != fn ==>
          k in s.store.hash && s.store.hash[k] == s'.store.hash[k])
    && (forall k :: k in s.store.hash && s.store.hash[k] != fn ==>
          k in s'.store.hash && s.store.hash[k] == s'.store.hash[k])
    && (c.at == InHash ==> c.code in s'.store.hash && s'.store.hash[c.code] == fn)
  }

  ghost predicate FiringMoves(s: State, s': State, fn: FnId, c: Call) {
    && (forall f :: f in s'.firing && f.fn == fn ==> c.at == Firing(f.res) && s'.firing[f] == 1)
    && (forall f: Fire :: f.fn != fn ==> s'.firing[f] == s.firing[f])
    && (c.at.Firing? ==> Fire(fn, c.at.res) in s'.firing)
  }

  ghost predicate SlotsMove(s: State, s': State, fn: FnId, c: Call) {
    && fn in s'.slots && s'.slots[fn] == (if c.at.InSlot? then [c.at.res] else [])
    && (forall g :: g in s'.slots && g != fn ==> g in s.slots && s'.slots[g] == s.slots[g])
    && (forall g :: g in s.slots && g != fn ==> g in s'.slots)
  }

  lemma MoveHolders(s: State, s': State, id: CallId, fn: FnId, c: Call)
    requires OthersStay(s, s', id, fn, c)
    ensures forall g, at :: g != fn && HolderAt(s, g, at) ==> HolderAt(s', g, at) && s.owner[g] != id
    ensures Placeable(c.at) ==> HolderAt(s', fn, c.at) && s'.owner[fn] == id
  {
  }

  lemma MoveKeepsPlaces(s: State, s': State, id: CallId, fn: FnId, c: Call)
    requires Placed(s) && OthersStay(s, s', id, fn, c)
    requires HashMoves(s, s', fn, c) && FiringMoves(s, s', fn, c) && SlotsMove(s, s', fn, c)
    ensures Placed(s')
  {
    MoveHash(s, s', id, fn, c);
    MoveFiring(s, s', id, fn, c);
    MoveSlots(s, s', id, fn, c);
    MoveCalls(s, s', id, fn, c);
  }

  lemma MoveHash(s: State, s': State, id: CallId, fn: FnId, c: Call)
    requires HashPlaced(s) && OthersStay(s, s', id, fn, c) && HashMoves(s, s', fn, c)
    ensures HashPlaced(s')
  {
    MoveHolders(s, s', id, fn, c);
    forall k | k in s'.store.hash
      ensures HolderAt(s', s'.store.hash[k], InHash) && s'.calls[s'.owner[s'.store.hash[k]]].code == k
    {
      assert s'.store.hash[k] != fn ==> HolderAt(s, s.store.hash[k], InHash);
    }
  }

  lemma MoveFiring(s: State, s': State, id: CallId, fn: FnId, c: Call)
    requires FiringPlaced(s) && OthersStay(s, s', id, fn, c) && FiringMoves(s, s', fn, c)
    ensures FiringPlaced(s')
  {
    MoveHolders(s, s', id, fn, c);
    forall f | f in s'.firing ensures s'.firing[f] == 1 && HolderAt(s', f.fn, Firing(f.res)) {
      assert f.fn != fn ==> f in s.firing && HolderAt(s, f.fn, Firing(f.res));
    }
  }

  lemma MoveSlots(s: State, s': State, id: CallId, fn: FnId, c: Call)
    requires SlotsPlaced(s) && OthersStay(s, s', id, fn, c) && SlotsMove(s, s', fn, c)
    ensures SlotsPlaced(s')
  {
    MoveHolders(s, s', id, fn, c);
    forall g | g in s'.slots && s'.slots[g] != []
      ensures |s'.slots[g]| == 1 && HolderAt(s', g, InSlot(s'.slots[g][0]))
    {
      assert g != fn ==> HolderAt(s, g, InSlot(s.slots[g][0]));
    }
  }

  lemma MoveCalls(s: State, s': State, id: CallId, fn: FnId, c: Call)
    requires CallsLocated(s) && OthersStay(s, s', id, fn, c)
    requires HashMoves(s, s', fn, c) && FiringMoves(s, s', fn, c) && SlotsMove(s, s', fn, c)
    ensures CallsLocated(s')
  {
    forall i | i in s'.calls ensures Located(s', s'.calls[i]) {
      if i != id {
        assert Located(s, s.calls[i]);
        if s.calls[i].at.Firing? {
          assert s'.firing[Fire(s.calls[i].fn, s.calls[i].at.res)] > 0;
        }
      }
    }
  }

  /** In a good state no other call is placed at the result function of an active call. */
  lemma OthersHoldOthers(s: State, id: CallId)
    requires Owned(s) && Phases(s) && id in s.calls && Active(s.calls[id])
    ensures forall i :: i in s.calls && i != id && Placeable(s.calls[i].at) ==> s.calls[i].fn != s.calls[id].fn
    ensures forall g :: g in s.owner && g != s.calls[id].fn ==> s.owner[g] != id
    ensures s.calls[id].fn in s.owner && s.owner[s.calls[id].fn] == id && s.calls[id].fn in s.slots
  {
    forall i | i in s.calls && Placeable(s.calls[i].at) ensures Active(s.calls[i]) {
      assert Phase(s.calls[i]);
    }
  }

  /** What the places say about the result function of one active call. */
  lemma PlacesOf(s: State, id: CallId)
    requires Owned(s) && Placed(s) && id in s.calls && Active(s.calls[id])
    ensures var c := s.calls[id];
      && (forall k :: k in s.store.hash && s.store.hash[k] == c.fn ==> c.at == InHash && k == c.code)
      && (forall f :: f in s.firing && f.fn == c.fn ==> c.at == Firing(f.res) && s.firing[f] == 1)
      && c.fn in s.slots && s.slots[c.fn] == (if c.at.InSlot? then [c.at.res] else [])
  {
    var c := s.calls[id];
    assert Located(s, c);
    assert c.fn in s.slots;
    forall k | k in s.store.hash && s.store.hash[k] == c.fn ensures c.at == InHash && k == c.code {
      assert HolderAt(s, s.store.hash[k], InHash);
    }
    forall f | f in s.firing && f.fn == c.fn ensures c.at == Firing(f.res) && s.firing[f] == 1 {
      assert HolderAt(s, f.fn, Firing(f.res));
    }
    assert s.slots[c.fn] != [] ==> HolderAt(s, c.fn, InSlot(s.slots[c.fn][0]));
  }

  // ---- resolving -----------------------------------------------------------------------------

  lemma ResolveMoves(s: State, code: Code, res: Result) returns (id: CallId)
    requires Owned(s) && HashPlaced(s) && code in s.store.hash && res.code == code
    ensures id in s.calls && s.calls[id].at == InHash && s.calls[id].code == code
    ensures s.calls[id].fn == s.store.hash[code]
    ensures DoResolve(s, code, res) == s.(store := Resolved(s.store, code),
      firing := s.firing + multiset{Fire(s.calls[id].fn, res)}, calls := s.calls[id := s.calls[id].(at := Firing(res))])
  {
    assert HolderAt(s, s.store.hash[code], InHash);
    id := s.owner[s.store.hash[code]];
  }

  lemma ResolvePlaces(s: State, id: CallId, res: Result, s': State)
    requires Owned(s) && Phases(s) && Placed(s)
    requires id in s.calls && s.calls[id].at == InHash && s.calls[id].code == res.code
    requires s' == s.(store := Resolved(s.store, res.code),
      firing := s.firing + multiset{Fire(s.calls[id].fn, res)}, calls := s.calls[id := s.calls[id].(at := Firing(res))])
    ensures Placed(s')
  {
    var c := s.calls[id];
    assert Phase(c);
    OthersHoldOthers(s, id);
    PlacesOf(s, id);
    assert s'.store.hash == s.store.hash - {res.code};
    MoveKeepsPlaces(s, s', id, c.fn, c.(at := Firing(res)));
  }

  /** Emptying the store serves whoever waits for it, and an empty store has nothing in flight. */
  lemma ResolveCloses(s: State, code: Code, s': State)
    requires Closing(s) && CallsLocated(s')
    requires s'.store == Resolved(s.store, code) && SameFlags(s.(store := s'.store), s')
    requires NoneInFlight(s) ==> NoneInFlight(s')
    ensures Closing(s')
  {
    StoreStaysGood(s.store, code, 0);
    if s.shut.Awaiting? && s.shut.ch.Some? && s.store.emptied == s.shut.ch {
      HeldChannelIsServed(s.store, code, s.shut.ch.value);
    }
    if s'.store.hash == map[] {
      EmptyMeansNoneInFlight(s');
    }
    assert forall k :: k in s.store.closed ==> k in s'.store.closed;
  }

  lemma EmptyMeansNoneInFlight(s: State)
    requires CallsLocated(s) && s.store.hash == map[]
    ensures NoneInFlight(s)
  {
    forall id | id in s.calls ensures s.calls[id].at != InHash {
      assert Located(s, s.calls[id]);
    }
  }

  lemma ResolveKeeps(s: State, code: Code, res: Result)
    requires Inv(s) && res.code == code
    ensures Inv(DoResolve(s, code, res)) && code !in DoResolve(s, code, res).store.hash
    ensures DoResolve(s, code, res).calls.Keys == s.calls.Keys
    ensures forall id :: id in s.calls ==>
      DoResolve(s, code, res).calls[id] == s.calls[id].(at := DoResolve(s, code, res).calls[id].at)
  {
    hide Closing, FiringPlaced, SlotsPlaced, HolderAt, OthersStay;
    if code in s.store.hash {
      var s' := DoResolve(s, code, res);
      var id := ResolveMoves(s, code, res);
      MovePhases(s, s', id, s.calls[id].(at := Firing(res)));
      OwnedFrame(s, s');
      NoneInFlightFrame(s, s');
      ResolvePlaces(s, id, res, s');
      ResolveCloses(s, code, s');
    }
  }

  lemma MovePhases(s: State, s': State, id: CallId, c: Call)
    requires Phases(s) && s'.calls == s.calls[id := c]
    requires id in s.calls && (Phase(s.calls[id]) ==> Phase(c))
    ensures Phases(s')
  {
  }

  lemma ResolveOwnKeeps(s: State, id: CallId)
    requires Inv(s) && Enabled(s, ResolveOwn(id))
    ensures Inv(Next(s, ResolveOwn(id)))
  {
    hide Owned, HashPlaced, FiringPlaced, SlotsPlaced, Closing, OthersStay, HolderAt;
    var c := s.calls[id];
    var s' := DoResolve(s, c.code, Failure(c.code, c.pc.err));
    ResolveKeeps(s, c.code, Failure(c.code, c.pc.err));
    assert Located(s', s'.calls[id]) && Phase(s'.calls[id]);
    SetPcKeeps(s', id, if c.pc.SendFailed? then Waiting else Receiving);
  }

  // ---- the other steps of a call ---------------------------------------------------------------

  lemma AcquireKeeps(s: State, id: CallId, fn: FnId, msg: U32)
    requires Inv(s) && Enabled(s, Acquire(id, fn, msg))
    ensures Inv(Next(s, Acquire(id, fn, msg)))
  {
    var s' := Next(s, Acquire(id, fn, msg));
    AcquireOwned(s, id, fn, msg, s');
    AcquirePlaces(s, id, fn, msg, s');
    ClosingFrame(s, s');
  }

  lemma AcquireOwned(s: State, id: CallId, fn: FnId, msg: U32, s': State)
    requires Owned(s) && Phases(s) && Enabled(s, Acquire(id, fn, msg)) && s' == Next(s, Acquire(id, fn, msg))
    ensures Owned(s') && Phases(s') && fn !in s.owner
  {
    hide Owned, Phase;
    UnusedIsUnowned(s, fn);
    OwnedGrows(s, s', id, fn);
    FirstPhase(s'.calls[id]);
  }

  lemma UnusedIsUnowned(s: State, fn: FnId)
    requires Owned(s) && (fn in s.pool || fn !in s.slots)
    ensures fn !in s.owner
  {
  }

  lemma FirstPhase(c: Call)
    requires c.pc == Acquired && c.at == Nowhere && !c.passed && c.fired == c.taken == 0
    ensures Phase(c)
  {
  }

  lemma OwnedGrows(s: State, s': State, id: CallId, fn: FnId)
    requires Owned(s) && id !in s.calls && fn !in s.owner
    requires id in s'.calls && s'.calls == s.calls[id := s'.calls[id]] && s'.owner == s.owner[fn := id]
    requires s'.calls[id].fn == fn && Active(s'.calls[id])
    requires s'.slots.Keys == s.slots.Keys + {fn} && s'.pool == s.pool - {fn}
    ensures Owned(s')
  {
  }

  lemma AcquirePlaces(s: State, id: CallId, fn: FnId, msg: U32, s': State)
    requires Owned(s) && Phases(s) && Placed(s)
    requires Enabled(s, Acquire(id, fn, msg)) && s' == Next(s, Acquire(id, fn, msg))
    ensures Placed(s')
  {
    UnownedIsEmpty(s, fn);
    MoveKeepsPlaces(s, s', id, fn, s'.calls[id]);
  }

  lemma UnownedIsEmpty(s: State, fn: FnId)
    requires Owned(s) && Phases(s) && Placed(s) && fn !in s.owner
    ensures forall k :: k in s.store.hash ==> s.store.hash[k] != fn
    ensures forall f :: f in s.firing ==> f.fn != fn
    ensures fn in s.slots ==> s.slots[fn] == []
    ensures forall i :: i in s.calls && Placeable(s.calls[i].at) ==> s.calls[i].fn != fn
  {
    forall k | k in s.store.hash ensures s.store.hash[k] != fn {
      assert HolderAt(s, s.store.hash[k], InHash);
    }
    forall f | f in s.firing ensures f.fn != fn {
      assert HolderAt(s, f.fn, Firing(f.res));
    }
    forall g | g in s.slots && s.slots[g] != [] ensures g in s.owner {
      assert HolderAt(s, g, InSlot(s.slots[g][0]));
    }
    forall i | i in s.calls && Placeable(s.calls[i].at) ensures s.calls[i].fn != fn {
      assert Phase(s.calls[i]);
    }
  }

  lemma PushKeeps(s: State, id: CallId, sync: U32)
    requires Inv(s) && Enabled(s, Push(id, sync))
    ensures Inv(Next(s, Push(id, sync)))
  {
    hide HashPlaced, FiringPlaced, SlotsPlaced, CallsLocated, HolderAt, OthersStay, Closing;
    var s' := Next(s, Push(id, sync));
    OwnedFrame(s, s');
    MovePhases(s, s', id, s'.calls[id]);
    PushPlaces(s, id, sync, s');
    PushCloses(s, id, sync, s');
  }

  lemma PushPlaces(s: State, id: CallId, sync: U32, s': State)
    requires Owned(s) && Phases(s) && Placed(s) && Enabled(s, Push(id, sync)) && s' == Next(s, Push(id, sync))
    ensures Placed(s')
  {
    hide HashPlaced, FiringPlaced, SlotsPlaced, CallsLocated, Owned;
    var c := s.calls[id];
    assert Phase(c);
    OthersHoldOthers(s, id);
    PlacesOf(s, id);
    MoveKeepsPlaces(s, s', id, c.fn, s'.calls[id]);
  }

  lemma PushCloses(s: State, id: CallId, sync: U32, s': State)
    requires Phases(s) && Closing(s) && Enabled(s, Push(id, sync)) && s' == Next(s, Push(id, sync))
    ensures Closing(s')
  {
    var c := s.calls[id];
    assert Phase(c);
    StoreStaysGood(s.store, Code(c.msg, sync), c.fn);
  }

  lemma CheckKeeps(s: State, id: CallId)
    requires Inv(s) && Enabled(s, Check(id))
    ensures Inv(Next(s, Check(id)))
  {
    hide Owned, Placed, OthersStay, HolderAt;
    assert Phase(s.calls[id]);
    if s.stopped {
      SetPcKeeps(s, id, SendFailed(Error.Stopped));
    } else if s.hijacked {
      SetPcKeeps(s, id, SendFailed(Error.Hijacked));
    } else {
      var s' := Next(s, Check(id));
      OwnedFrame(s, s');
      PlacedFrame(s, s');
      MovePhases(s, s', id, s'.calls[id]);
    }
  }

  lemma TakeKeeps(s: State, id: CallId)
    requires Inv(s) && Enabled(s, Take(id))
    ensures Inv(Next(s, Take(id)))
  {
    hide HashPlaced, FiringPlaced, SlotsPlaced, CallsLocated, HolderAt, OthersStay, Closing;
    var s' := Next(s, Take(id));
    var c := s.calls[id];
    OthersHoldOthers(s, id);
    PlacesOf(s, id);
    OwnedFrame(s, s');
    MovePhases(s, s', id, s'.calls[id]);
    NoneInFlightFrame(s, s');
    ClosingFrame(s, s');
    TakePlaces(s, id, s');
  }

  lemma TakePlaces(s: State, id: CallId, s': State)
    requires Owned(s) && Phases(s) && Placed(s) && Enabled(s, Take(id)) && s' == Next(s, Take(id))
    ensures Placed(s')
  {
    hide HashPlaced, FiringPlaced, SlotsPlaced, CallsLocated, Owned;
    OthersHoldOthers(s, id);
    PlacesOf(s, id);
    MoveKeepsPlaces(s, s', id, s.calls[id].fn, s'.calls[id]);
  }

  lemma ReleaseKeeps(s: State, id: CallId)
    requires Inv(s) && Enabled(s, Release(id))
    ensures Inv(Next(s, Release(id)))
    ensures s.slots[s.calls[id].fn] == [] && s.calls[id].fn in Next(s, Release(id)).pool
  {
    hide HashPlaced, FiringPlaced, SlotsPlaced, CallsLocated, HolderAt, OthersStay, Closing;
    var s' := Next(s, Release(id));
    assert Phase(s.calls[id]);
    PlacesOf(s, id);
    ReleaseOwned(s, id, s');
    MovePhases(s, s', id, s'.calls[id]);
    NoneInFlightFrame(s, s');
    ClosingFrame(s, s');
    ReleasePlaces(s, id, s');
  }

  lemma ReleaseOwned(s: State, id: CallId, s': State)
    requires Owned(s) && Enabled(s, Release(id)) && s' == Next(s, Release(id))
    ensures Owned(s')
  {
  }

  lemma ReleasePlaces(s: State, id: CallId, s': State)
    requires Owned(s) && Phases(s) && Placed(s) && Enabled(s, Release(id)) && s' == Next(s, Release(id))
    ensures Placed(s')
  {
    hide HashPlaced, FiringPlaced, SlotsPlaced, CallsLocated, Owned;
    assert Phase(s.calls[id]);
    OthersHoldOthers(s, id);
    PlacesOf(s, id);
    MoveKeepsPlaces(s, s', id, s.calls[id].fn, s'.calls[id]);
  }

  lemma RunCallbackKeeps(s: State, fire: Fire)
    requires Inv(s) && Enabled(s, RunCallback(fire))
    ensures Inv(Next(s, RunCallback(fire)))
  {
    hide HashPlaced, SlotsPlaced, CallsLocated, OthersStay, Closing;
    var s' := Next(s, RunCallback(fire));
    assert HolderAt(s, fire.fn, Firing(fire.res));
    var id := s.owner[fire.fn];
    OwnedFrame(s, s');
    MovePhases(s, s', id, s'.calls[id]);
    NoneInFlightFrame(s, s');
    ClosingFrame(s, s');
    RunCallbackPlaces(s, fire, id, s');
  }

  lemma RunCallbackPlaces(s: State, fire: Fire, id: CallId, s': State)
    requires Owned(s) && Phases(s) && Placed(s) && Enabled(s, RunCallback(fire)) && s' == Next(s, RunCallback(fire))
    requires HolderAt(s, fire.fn, Firing(fire.res)) && id == s.owner[fire.fn]
    ensures Placed(s')
  {
    hide HashPlaced, FiringPlaced, SlotsPlaced, CallsLocated, Owned;
    OthersHoldOthers(s, id);
    PlacesOf(s, id);
    MoveKeepsPlaces(s, s', id, fire.fn, s'.calls[id]);
  }

  // ---- Drop, Hijack and Shutdown ---------------------------------------------------------------

  lemma DropRejectKeeps(s: State)
    requires Inv(s) && Enabled(s, DropReject)
    ensures Inv(Next(s, DropReject))
  {
    hide HashPlaced, FiringPlaced, SlotsPlaced, HolderAt;
    var s' := Next(s, DropReject);
    RejectedAre(s);
    OwnedFrame(s, s');
    RejectPlaces(s, s');
    RejectCloses(s, s');
  }

  lemma RejectedAre(s: State)
    requires Phases(s) && CallsLocated(s)
    ensures RejectedCalls(s).Keys == s.calls.Keys
    ensures forall id :: id in s.calls && s.calls[id].at == InHash ==>
      RejectedCalls(s)[id] == s.calls[id].(at := Firing(Failure(s.calls[id].code, DroppedConn)))
    ensures forall id :: id in s.calls && s.calls[id].at != InHash ==> RejectedCalls(s)[id] == s.calls[id]
    ensures forall id :: id in s.calls ==> Phase(RejectedCalls(s)[id])
  {
    forall id | id in s.calls ensures s.calls[id].at == InHash ==>
      s.calls[id].code in s.store.hash && s.store.hash[s.calls[id].code] == s.calls[id].fn {
      assert Located(s, s.calls[id]) && Phase(s.calls[id]);
    }
  }

  lemma RejectPlaces(s: State, s': State)
    requires Phases(s) && Placed(s) && Owned(s)
    requires s' == s.(dropping := false, store := Rejected(s.store), firing := s.firing + Rejections(s.store.hash),
                      calls := RejectedCalls(s))
    ensures Placed(s')
  {
    hide FiringPlaced, SlotsPlaced, CallsLocated, Phases, Owned;
    assert s'.store.hash == map[];
    RejectFiring(s, s');
    RejectSlots(s, s');
    RejectLocated(s, s');
  }

  lemma RejectLocated(s: State, s': State)
    requires Phases(s) && CallsLocated(s)
    requires s'.calls == RejectedCalls(s) && s'.slots == s.slots
    requires s'.firing == s.firing + Rejections(s.store.hash)
    ensures CallsLocated(s')
  {
    RejectedAre(s);
    forall id | id in s'.calls ensures Located(s', s'.calls[id]) {
      assert Located(s, s.calls[id]);
      if s.calls[id].at == InHash {
        assert Fire(s.store.hash[s.calls[id].code], Failure(s.calls[id].code, DroppedConn)) in Rejections(s.store.hash);
      }
    }
  }

  lemma RejectFiring(s: State, s': State)
    requires Phases(s) && CallsLocated(s) && HashPlaced(s) && FiringPlaced(s) && s'.owner == s.owner
    requires s'.firing == s.firing + Rejections(s.store.hash) && s'.calls == RejectedCalls(s)
    ensures FiringPlaced(s')
  {
    RejectedAre(s);
    forall f | f in Rejections(s.store.hash) ensures HolderAt(s, f.fn, InHash) {
      assert HolderAt(s, s.store.hash[f.res.code], InHash);
    }
    forall f | f in s'.firing ensures s'.firing[f] == 1 && HolderAt(s', f.fn, Firing(f.res)) {
      assert f in s.firing ==> HolderAt(s, f.fn, Firing(f.res));
    }
  }

  lemma RejectSlots(s: State, s': State)
    requires Phases(s) && CallsLocated(s) && SlotsPlaced(s)
    requires s'.owner == s.owner && s'.slots == s.slots && s'.calls == RejectedCalls(s)
    ensures SlotsPlaced(s')
  {
    RejectedAre(s);
    forall g | g in s'.slots && s'.slots[g] != []
      ensures |s'.slots[g]| == 1 && HolderAt(s', g, InSlot(s'.slots[g][0])) {
      assert HolderAt(s, g, InSlot(s.slots[g][0]));
    }
  }

  lemma RejectCloses(s: State, s': State)
    requires Closing(s) && CallsLocated(s') && s'.store == Rejected(s.store)
    requires SameFlags(s.(store := s'.store, dropping := false), s')
    ensures Closing(s')
  {
    StoreStaysGood(s.store, Code(0, 0), 0);
    if s.shut.Awaiting? && s.shut.ch.Some? && s.store.emptied == s.shut.ch {
      HeldChannelIsServed(s.store, Code(0, 0), s.shut.ch.value);
    }
    EmptyMeansNoneInFlight(s');
    assert forall k :: k in s.store.closed ==> k in s'.store.closed;
  }

  predicate IsClosing(e: Event) {
    e.DropLock? || e.Hijack? || e.ShutLock? || e.ShutEmpty? || e.ShutPass? || e.ShutStop?
  }

  lemma ClosingStepKeeps(s: State, e: Event)
    requires Inv(s) && Enabled(s, e) && IsClosing(e)
    ensures Inv(Next(s, e))
  {
    hide HolderAt, Phase, Located;
    var s' := Next(s, e);
    OwnedFrame(s, s');
    PlacedFrame(s, s');
    ClosingAdvances(s, e, s');
  }

  lemma ClosingAdvances(s: State, e: Event, s': State)
    requires Closing(s) && CallsLocated(s) && Enabled(s, e) && IsClosing(e) && s' == Next(s, e)
    ensures Closing(s')
  {
    hide NoneInFlight, CallsLocated, GoodStore;
    SameCalls(s, s');
    if e.ShutEmpty? {
      WaitBegins(s, s');
    } else if e.ShutPass? {
      WaitEnds(s, s');
    }
  }

  /** Shutdown waits on the store's current channel, or passes at once when nothing is filed. */
  lemma WaitBegins(s: State, s': State)
    requires Closing(s) && CallsLocated(s) && Enabled(s, ShutEmpty) && s' == Next(s, ShutEmpty)
    ensures Closing(s')
  {
    hide NoneInFlight, CallsLocated;
    StoreStaysGood(s.store, Code(0, 0), 0);
    SameCalls(s, s');
    if s.store.hash == map[] {
      EmptyMeansNoneInFlight(s);
    }
  }

  lemma WaitEnds(s: State, s': State)
    requires Closing(s) && Enabled(s, ShutPass) && s' == Next(s, ShutPass)
    ensures Closing(s')
  {
    hide NoneInFlight;
    SameCalls(s, s');
  }

  lemma SameCalls(s: State, s': State)
    requires s'.calls == s.calls
    ensures NoneInFlight(s') <==> NoneInFlight(s)
  {
  }

  lemma StepKeeps(s: State, e: Event)
    requires Inv(s) && Enabled(s, e)
    ensures Inv(Next(s, e))
  {
    hide Owned, Placed, Closing;
    match e
    case Acquire(id, fn, msg) => AcquireKeeps(s, id, fn, msg);
    case Push(id, sync) => PushKeeps(s, id, sync);
    case Check(id) => CheckKeeps(s, id);
    case SendOk(id) =>
      assert Phase(s.calls[id]);
      SetPcKeeps(s, id, Waiting);
    case SendFail(id, err) =>
      assert Phase(s.calls[id]);
      SetPcKeeps(s, id, SendFailed(err));
    case ResolveOwn(id) => ResolveOwnKeeps(s, id);
    case GiveUp(id, err) =>
      assert Phase(s.calls[id]);
      SetPcKeeps(s, id, GivingUp(err));
    case Take(id) => TakeKeeps(s, id);
    case Release(id) => ReleaseKeeps(s, id);
    case Packet(code, data) => ResolveKeeps(s, code, Reply(code, data));
    case RunCallback(fire) => RunCallbackKeeps(s, fire);
    case DropReject => DropRejectKeeps(s);
    case _ => ClosingStepKeeps(s, e);
  }

  // ---------------------------------------------------------------------------------------------
  // Runs
  // ---------------------------------------------------------------------------------------------

  /** ss[i + 1] is reached from ss[i] by es[i]. */
  ghost predicate Run(ss: seq<State>, es: seq<Event>) {
    && |ss| == |es| + 1 && ss[0] == Init
    && forall i :: 0 <= i < |es| ==> (Enabled(ss[i], es[i]) && ss[i + 1] == Next(ss[i], es[i]))
  }

  lemma {:induction false} RunInv(ss: seq<State>, es: seq<Event>, i: nat)
    requires Run(ss, es) && i < |ss|
    ensures Inv(ss[i])
    decreases i
  {
    hide Inv, Enabled, Next;
    if i == 0 {
      InitInv();
    } else {
      RunInv(ss, es, i - 1);
      StepKeeps(ss[i - 1], es[i - 1]);
    }
  }

  /**
   A call's callback runs at most once. Until the call has its result, exactly one of its store entry,
   its pending callback and its filled slot exists; at the end it has received exactly one result, and
   the result was taken from its own entry.
   */
  lemma ExactlyOneResult(ss: seq<State>, es: seq<Event>, i: nat, id: CallId)
    requires Run(ss, es) && i < |ss| && id in ss[i].calls
    ensures var s, c := ss[i], ss[i].calls[id];
      && c.fired <= 1 && c.taken <= c.fired
      && (c.pc.Received? || c.pc.Finished? ==> c.fired == 1 && c.taken == 1 && c.pc.res.code == c.code)
      && (Active(c) ==> c.fn in s.slots)
      && (Active(c) && c.pc != Acquired && !c.pc.Received? ==>
            Bit(c.code in s.store.hash && s.store.hash[c.code] == c.fn)
            + Bit(exists f :: f in s.firing && f.fn == c.fn) + |s.slots[c.fn]| == 1)
  {
    RunInv(ss, es, i);
    var s, c := ss[i], ss[i].calls[id];
    assert Phase(c) && Located(s, c);
    if Active(c) {
      PlacesOf(s, id);
      if c.at.Firing? {
        assert Fire(c.fn, c.at.res) in s.firing;
      }
    }
  }

  /** No callback ever blocks on its slot, and released result functions are clean. */
  lemma SenderNeverBlocks(ss: seq<State>, es: seq<Event>, i: nat)
    requires Run(ss, es) && i < |ss|
    ensures forall f :: f in ss[i].firing ==> Enabled(ss[i], RunCallback(f))
    ensures forall fn :: fn in ss[i].pool ==>
      (fn in ss[i].slots && ss[i].slots[fn] == [] && (forall f :: f in ss[i].firing ==> f.fn != fn) &&
       forall k :: k in ss[i].store.hash ==> ss[i].store.hash[k] != fn)
  {
    RunInv(ss, es, i);
    var s := ss[i];
    forall f | f in s.firing ensures Enabled(s, RunCallback(f)) {
      assert HolderAt(s, f.fn, Firing(f.res));
      PlacesOf(s, s.owner[f.fn]);
    }
    forall fn | fn in s.pool ensures fn in s.slots && s.slots[fn] == [] && (forall f :: f in s.firing ==> f.fn != fn) &&
      forall k :: k in s.store.hash ==> s.store.hash[k] != fn {
      UnownedIsEmpty(s, fn);
    }
  }

  /** The call holding a store entry will find the channel stopped and take its entry out itself. */
  ghost predicate ResolvesItself(s: State, k: Code) {
    && k in s.store.hash && s.store.hash[k] in s.owner && s.owner[s.store.hash[k]] in s.calls
    && var id := s.owner[s.store.hash[k]];
    var c := s.calls[id];
    && c.code == k && !c.passed && s.stopped
    && ((c.pc == Filed && Enabled(s, Check(id)) && Next(s, Check(id)).calls[id].pc == SendFailed(Error.Stopped))
        || (c.pc.SendFailed? && Enabled(s, ResolveOwn(id)) && k !in Next(s, ResolveOwn(id)).store.hash))
  }

  /** After Drop released the channel mutex, every entry left belongs to a call that resolves it itself. */
  lemma NoCallLost(ss: seq<State>, es: seq<Event>, i: nat, k: Code)
    requires Run(ss, es) && i < |ss| && ss[i].dropped && !ss[i].dropping && k in ss[i].store.hash
    ensures ResolvesItself(ss[i], k)
  {
    RunInv(ss, es, i);
    EntryResolvesItself(ss[i], k);
  }

  lemma EntryResolvesItself(s: State, k: Code)
    requires Inv(s) && s.dropped && !s.dropping && k in s.store.hash
    ensures ResolvesItself(s, k)
  {
    hide FiringPlaced, SlotsPlaced, CallsLocated, Owned;
    assert HolderAt(s, s.store.hash[k], InHash);
    var id := s.owner[s.store.hash[k]];
    var c := s.calls[id];
    assert Phase(c);
    if c.pc.SendFailed? {
      ResolveTakesOut(s, k, Failure(k, c.pc.err));
    }
  }

  lemma ResolveTakesOut(s: State, k: Code, res: Result)
    ensures k !in DoResolve(s, k, res).store.hash && DoResolve(s, k, res).calls.Keys == s.calls.Keys
  {
  }

  /** Once stopped, no call passes the stopped check any more. */
  lemma {:induction false} StoppedStops(ss: seq<State>, es: seq<Event>, i: nat, j: nat, id: CallId)
    requires Run(ss, es) && i <= j < |ss| && ss[i].stopped && id in ss[j].calls && ss[j].calls[id].passed
    ensures ss[j].stopped && id in ss[i].calls && ss[i].calls[id].passed
    decreases j
  {
    hide Enabled, Next;
    if i < j {
      StoppedStays(ss, es, i, j - 1);
      StoppedAtStep(ss[j - 1], es[j - 1], id);
      StoppedStops(ss, es, i, j - 1, id);
    }
  }

  lemma {:induction false} StoppedStays(ss: seq<State>, es: seq<Event>, i: nat, j: nat)
    requires Run(ss, es) && i <= j < |ss| && ss[i].stopped
    ensures ss[j].stopped
    decreases j
  {
    hide Enabled, Next;
    if i < j {
      StoppedStays(ss, es, i, j - 1);
      StoppedStep(ss[j - 1], es[j - 1]);
    }
  }

  lemma StoppedStep(s: State, e: Event)
    requires Enabled(s, e) && s.stopped
    ensures Next(s, e).stopped
  {
  }

  lemma StoppedAtStep(s: State, e: Event, id: CallId)
    requires Enabled(s, e) && s.stopped && id in Next(s, e).calls && Next(s, e).calls[id].passed
    ensures id in s.calls && s.calls[id].passed && Next(s, e).stopped
  {
    StoppedStep(s, e);
    match e
    case ResolveOwn(i) => ResolvePassed(s, s.calls[i].code, Failure(s.calls[i].code, s.calls[i].pc.err));
    case Packet(code, data) => ResolvePassed(s, code, Reply(code, data));
    case RunCallback(f) => MovedPassed(s, f.fn, InSlot(f.res));
    case DropReject => assert RejectedCalls(s)[id].passed == s.calls[id].passed;
    case _ =>
  }

  lemma MovedPassed(s: State, fn: FnId, at: Where)
    ensures Moved(s, fn, at).Keys == s.calls.Keys
    ensures forall i :: i in s.calls ==> Moved(s, fn, at)[i].passed == s.calls[i].passed
  {
  }

  lemma ResolvePassed(s: State, code: Code, res: Result)
    ensures DoResolve(s, code, res).calls.Keys == s.calls.Keys
    ensures forall i :: i in s.calls ==> DoResolve(s, code, res).calls[i].passed == s.calls[i].passed
  {
  }

  /**
   Once Shutdown is past waiting for the empty store, every call that ever passed the stopped check has
   been taken out of the store, now and at any later time, and no later call passes the check.
   */
  lemma ShutdownDrains(ss: seq<State>, es: seq<Event>, i: nat, j: nat, id: CallId)
    requires Run(ss, es) && i <= j < |ss| && (ss[i].shut == Drained || ss[i].shut == StopperClosed)
    requires id in ss[j].calls && ss[j].calls[id].passed
    ensures id in ss[i].calls && ss[i].calls[id].passed
    ensures ss[i].calls[id].at != InHash && ss[j].calls[id].at != InHash
  {
    RunInv(ss, es, i);
    RunInv(ss, es, j);
    ShutStays(ss, es, i, j);
    StoppedStops(ss, es, i, j, id);
  }

  lemma {:induction false} ShutStays(ss: seq<State>, es: seq<Event>, i: nat, j: nat)
    requires Run(ss, es) && i <= j < |ss| && (ss[i].shut == Drained || ss[i].shut == StopperClosed)
    ensures ss[j].shut == Drained || ss[j].shut == StopperClosed
    decreases j
  {
    hide Enabled, Next, Owned, Phases, Placed, Closing;
    if i < j {
      ShutStays(ss, es, i, j - 1);
      RunInv(ss, es, j - 1);
      ShutAtStep(ss[j - 1], es[j - 1]);
    }
  }

  lemma ShutAtStep(s: State, e: Event)
    requires Closing(s) && Enabled(s, e) && (s.shut == Drained || s.shut == StopperClosed)
    ensures Next(s, e).shut == Drained || Next(s, e).shut == StopperClosed
  {
  }

  /** The stopper and each wait channel are closed at most once, the latter only as the store gets empty. */
  lemma ClosedAtMostOnce(ss: seq<State>, es: seq<Event>, i: nat, k: nat)
    requires Run(ss, es) && i < |ss|
    ensures ss[i].stopperCloses <= 1 && ss[i].store.closed[k] <= 1
    ensures i < |es| && ss[i + 1].store.closed[k] != ss[i].store.closed[k] ==> ss[i + 1].store.hash == map[]
  {
    RunInv(ss, es, i);
    if i < |es| {
      ClosesEmpty(ss[i], es[i], k);
    }
  }

  lemma ClosesEmpty(s: State, e: Event, k: nat)
    requires Closing(s) && Enabled(s, e)
    ensures Next(s, e).store.closed[k] != s.store.closed[k] ==> Next(s, e).store.hash == map[]
  {
    match e
    case ResolveOwn(id) => ClosedOnlyWhenEmpty(s.store, s.calls[id].code, k);
    case Packet(code, _) => ClosedOnlyWhenEmpty(s.store, code, k);
    case _ =>
  }

  // ---- progress --------------------------------------------------------------------------------

  function PcRank(pc: Pc): nat {
    match pc
    case Acquired => 9 case Filed => 8 case Sending => 7 case SendFailed(_) => 6 case Waiting => 5
    case GivingUp(_) => 4 case Receiving => 3 case Received(_) => 1 case Finished(_) => 0
  }

  /** Steps a call may still need. */
  function Rank(c: Call): nat {
    PcRank(c.pc) + (if c.at == Nowhere || c.at == InHash then 2 else if c.at.Firing? then 1 else 0)
  }

  /** The step is the call's own or runs its callback. */
  predicate Own(s: State, e: Event, id: CallId) {
    match e
    case Push(i, _) => i == id
    case Check(i) => i == id
    case SendOk(i) => i == id
    case SendFail(i, _) => i == id
    case ResolveOwn(i) => i == id
    case GiveUp(i, _) => i == id
    case Take(i) => i == id
    case Release(i) => i == id
    case RunCallback(f) => f.fn in s.owner && s.owner[f.fn] == id
    case _ => false
  }

  /** Own steps bring a call closer to its end and no other step takes it back. */
  lemma RankDrops(s: State, e: Event, id: CallId)
    requires Inv(s) && Enabled(s, e) && id in s.calls
    ensures id in Next(s, e).calls && Rank(Next(s, e).calls[id]) <= Rank(s.calls[id])
    ensures Own(s, e, id) ==> Rank(Next(s, e).calls[id]) < Rank(s.calls[id])
  {
    hide Owned, SlotsPlaced, CallsLocated, Closing, NoneInFlight, Rank, PcRank, Phase;
    match e
    case ResolveOwn(i) => ResolveOwnRank(s, i, id);
    case Packet(code, data) => ResolveRank(s, code, Reply(code, data), id);
    case RunCallback(f) => RunCallbackRank(s, f, id);
    case DropReject => RejectRank(s, id);
    case _ => PlainRank(s, e, id);
  }

  /** So at most 11 own steps are needed. */
  lemma RankBounded(s: State, id: CallId)
    requires Phases(s) && id in s.calls
    ensures Rank(s.calls[id]) <= 11
  {
    assert Phase(s.calls[id]);
  }

  /** How many of the steps from `i` to `j` are the call's own or run its callback. */
  ghost function OwnSteps(ss: seq<State>, es: seq<Event>, i: nat, j: nat, id: CallId): nat
    requires i <= j <= |es| <= |ss|
    decreases j
  {
    if i == j then 0 else OwnSteps(ss, es, i, j - 1, id) + Bit(Own(ss[j - 1], es[j - 1], id))
  }

  /** In every run a call takes at most 11 steps, whatever the other calls, the reader and the timers do. */
  lemma {:induction false} FewSteps(ss: seq<State>, es: seq<Event>, i: nat, j: nat, id: CallId)
    requires Run(ss, es) && i <= j <= |es| && id in ss[i].calls
    ensures id in ss[j].calls
    ensures OwnSteps(ss, es, i, j, id) + Rank(ss[j].calls[id]) <= Rank(ss[i].calls[id]) <= 11
    decreases j
  {
    hide Enabled, Next, Owned, Phases, Placed, Closing, Own, Rank;
    if i == j {
      RunInv(ss, es, i);
      RankBounded(ss[i], id);
    } else {
      FewSteps(ss, es, i, j - 1, id);
      RunInv(ss, es, j - 1);
      RankDrops(ss[j - 1], es[j - 1], id);
    }
  }

  lemma PlainRank(s: State, e: Event, id: CallId)
    requires Phases(s) && Enabled(s, e) && id in s.calls
    requires !e.ResolveOwn? && !e.Packet? && !e.RunCallback? && !e.DropReject?
    ensures id in Next(s, e).calls && Rank(Next(s, e).calls[id]) <= Rank(s.calls[id])
    ensures Own(s, e, id) ==> Rank(Next(s, e).calls[id]) < Rank(s.calls[id])
  {
    hide Rank, PcRank, Next, Enabled;
    assert Phase(s.calls[id]);
    if Own(s, e, id) {
      OwnRank(s, e, id);
    } else {
      OthersRest(s, e, id);
    }
  }

  lemma OthersRest(s: State, e: Event, id: CallId)
    requires Enabled(s, e) && id in s.calls && !Own(s, e, id)
    requires !e.ResolveOwn? && !e.Packet? && !e.RunCallback? && !e.DropReject?
    ensures id in Next(s, e).calls && Next(s, e).calls[id] == s.calls[id]
  {
  }

  lemma OwnRank(s: State, e: Event, id: CallId)
    requires id in s.calls && Phase(s.calls[id]) && Enabled(s, e) && Own(s, e, id)
    requires !e.ResolveOwn? && !e.RunCallback?
    ensures id in Next(s, e).calls && Rank(Next(s, e).calls[id]) < Rank(s.calls[id])
  {
    match e
    case Push(_, _) =>
    case Check(_) =>
    case Take(_) =>
    case _ =>
  }

  lemma RunCallbackRank(s: State, f: Fire, id: CallId)
    requires FiringPlaced(s) && Enabled(s, RunCallback(f)) && id in s.calls
    ensures id in Next(s, RunCallback(f)).calls && f.fn in s.owner
    ensures Rank(Next(s, RunCallback(f)).calls[id]) == Rank(s.calls[id]) - Bit(s.owner[f.fn] == id)
  {
    assert HolderAt(s, f.fn, Firing(f.res));
  }

  lemma RejectRank(s: State, id: CallId)
    requires Phases(s) && CallsLocated(s) && Enabled(s, DropReject) && id in s.calls
    ensures id in Next(s, DropReject).calls && Rank(Next(s, DropReject).calls[id]) <= Rank(s.calls[id])
  {
    RejectedAre(s);
  }

  lemma ResolveRank(s: State, code: Code, res: Result, id: CallId)
    requires Inv(s) && res.code == code && id in s.calls
    ensures var s' := DoResolve(s, code, res);
      id in s'.calls && s'.calls[id].pc == s.calls[id].pc && Rank(s'.calls[id]) <= Rank(s.calls[id])
  {
    if code in s.store.hash {
      var h := ResolveMoves(s, code, res);
    }
  }

  lemma ResolveOwnRank(s: State, i: CallId, id: CallId)
    requires Inv(s) && Enabled(s, ResolveOwn(i)) && id in s.calls
    ensures id in Next(s, ResolveOwn(i)).calls && Rank(Next(s, ResolveOwn(i)).calls[id]) <= Rank(s.calls[id])
    ensures i == id ==> Rank(Next(s, ResolveOwn(i)).calls[id]) < Rank(s.calls[id])
  {
    hide Owned, SlotsPlaced, CallsLocated, Closing, NoneInFlight;
    ResolveRank(s, s.calls[i].code, Failure(s.calls[i].code, s.calls[i].pc.err), id);
  }

  /** A call never waits for another: it, its callback, or the Drop that holds the mutex can step. */
  lemma NeverStuck(s: State, id: CallId) returns (e: Event)
    requires Inv(s) && id in s.calls && Active(s.calls[id])
    requires exists y: U32 :: FirstFree(s.store, s.calls[id].msg, y)
    ensures Enabled(s, e) && (Own(s, e, id) || e == DropReject)
  {
    var c := s.calls[id];
    assert Phase(c) && Located(s, c);
    PlacesOf(s, id);
    match c.pc
    case Acquired =>
      var y: U32 :| FirstFree(s.store, c.msg, y);
      e := Push(id, y);
    case Filed => e := if s.dropping then DropReject else Check(id);
    case Sending => e := SendOk(id);
    case SendFailed(_) => e := ResolveOwn(id);
    case Waiting => e := GiveUp(id, Timeout);
    case GivingUp(_) => e := ResolveOwn(id);
    case Receiving => e := if c.at.Firing? then RunCallback(Fire(c.fn, c.at.res)) else Take(id);
    case Received(_) => e := Release(id);
  }
}
