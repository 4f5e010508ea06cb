/** Where the result of a call comes from, and that it arrives unchanged. */
module ChannelResults {
  import opened Common
  import opened Counting
  import opened Pending
  import opened Channel

  /** The store entry under `k` is the one call `id` filed. */
  ghost predicate HoldsEntry(s: State, id: CallId, k: Code) {
    k in s.store.hash && s.store.hash[k] in s.owner && s.owner[s.store.hash[k]] == id
  }

  /** Call `id` is about to resolve its own entry because of `err`. */
  ghost predicate Failing(s: State, id: CallId, err: Error) {
    id in s.calls && (s.calls[id].pc == SendFailed(err) || s.calls[id].pc == GivingUp(err))
  }

  /** The event takes the entry of call `id` out of the store, with this result. */
  ghost predicate Decides(s: State, e: Event, id: CallId, res: Channel.Result) {
    && HoldsEntry(s, id, res.code)
    && match res
       case Reply(k, data) => e == Packet(k, data)
       case Failure(k, err) =>
         || (e == DropReject && err == DroppedConn)
         || (e.ResolveOwn? && Failing(s, e.id, err) && s.calls[e.id].code == k)
  }

  /** The event tells call `id` to fail with this error. */
  ghost predicate Names(s: State, e: Event, id: CallId, err: Error) {
    || (e == Check(id) && s.stopped && err == Error.Stopped)
    || (e == Check(id) && !s.stopped && s.hijacked && err == Error.Hijacked)
    || e == SendFail(id, err)
    || e == GiveUp(id, err)
  }

  /** The result is on its way to the call, or the call has it. */
  predicate Under(c: Call, res: Channel.Result) {
    c.at == Firing(res) || c.at == InSlot(res) || c.pc == Received(res) || c.pc == Finished(res)
  }

  predicate HasResult(c: Call) { c.pc.Received? || c.pc.Finished? }

  // ---------------------------------------------------------------------------------------------
  // One step
  // ---------------------------------------------------------------------------------------------

  /** A decided result is what the call is then given. */
  lemma DecidedIsUnder(s: State, e: Event, id: CallId, res: Channel.Result)
    requires Inv(s) && Enabled(s, e) && Decides(s, e, id, res)
    ensures id in Next(s, e).calls && Under(Next(s, e).calls[id], res)
  {
    hide Owned, FiringPlaced, SlotsPlaced, CallsLocated, Closing;
    EntryOf(s, id, res.code);
    if e == DropReject {
      RejectedAre(s);
    } else {
      var i := ResolveMoves(s, res.code, res);
    }
  }

  lemma EntryOf(s: State, id: CallId, k: Code)
    requires Inv(s) && HoldsEntry(s, id, k)
    ensures id in s.calls && s.calls[id].at == InHash && s.calls[id].code == k && s.calls[id].fn == s.store.hash[k]
    ensures !HasResult(s.calls[id])
  {
    assert HolderAt(s, s.store.hash[k], InHash);
    assert Phase(s.calls[id]);
  }

  /** A result on its way stays the same until the call has it, and then for good. */
  lemma UnderStays(s: State, e: Event, id: CallId, res: Channel.Result)
    requires Inv(s) && Enabled(s, e) && id in s.calls && Under(s.calls[id], res)
    ensures id in Next(s, e).calls && Under(Next(s, e).calls[id], res)
  {
    hide Owned, HashPlaced, FiringPlaced, SlotsPlaced, CallsLocated, Closing, Phase;
    match e
    case ResolveOwn(i) => ResolveElsewhere(s, s.calls[i].code, Failure(s.calls[i].code, s.calls[i].pc.err), id, res);
    case Packet(k, data) => ResolveElsewhere(s, k, Reply(k, data), id, res);
    case RunCallback(f) => CallbackBrings(s, f, id, res);
    case DropReject => RejectedAre(s);
    case Take(i) => TakeBrings(s, i, id, res);
    case _ => OwnPcStays(s, e, id, res);
  }

  lemma ResolveElsewhere(s: State, k: Code, r: Channel.Result, id: CallId, res: Channel.Result)
    requires Inv(s) && r.code == k && id in s.calls && Under(s.calls[id], res)
    ensures var s' := DoResolve(s, k, r);
      id in s'.calls && Under(s'.calls[id], res) && s'.calls[id].pc == s.calls[id].pc
      && s'.calls[id].at == s.calls[id].at
  {
    assert Phase(s.calls[id]);
    if k in s.store.hash {
      var i := ResolveMoves(s, k, r);
    }
  }

  lemma CallbackBrings(s: State, f: Fire, id: CallId, res: Channel.Result)
    requires Owned(s) && Phases(s) && FiringPlaced(s) && Enabled(s, RunCallback(f))
    requires id in s.calls && Under(s.calls[id], res)
    ensures id in Next(s, RunCallback(f)).calls && Under(Next(s, RunCallback(f)).calls[id], res)
  {
    assert HolderAt(s, f.fn, Firing(f.res));
    assert Phase(s.calls[s.owner[f.fn]]);
  }

  lemma TakeBrings(s: State, i: CallId, id: CallId, res: Channel.Result)
    requires Owned(s) && Phases(s) && SlotsPlaced(s) && Enabled(s, Take(i))
    requires id in s.calls && Under(s.calls[id], res)
    ensures id in Next(s, Take(i)).calls && Under(Next(s, Take(i)).calls[id], res)
  {
    assert HolderAt(s, s.calls[i].fn, InSlot(s.slots[s.calls[i].fn][0]));
    assert Phase(s.calls[i]);
  }

  lemma OwnPcStays(s: State, e: Event, id: CallId, res: Channel.Result)
    requires Phases(s) && Enabled(s, e) && id in s.calls && Under(s.calls[id], res)
    requires !e.ResolveOwn? && !e.Packet? && !e.RunCallback? && !e.DropReject? && !e.Take?
    ensures id in Next(s, e).calls && Under(Next(s, e).calls[id], res)
  {
    hide Enabled, Next;
    assert Phase(s.calls[id]);
    if Own(s, e, id) {
      OwnBrings(s, e, id, res);
    } else {
      OthersRest(s, e, id);
    }
  }

  lemma OwnBrings(s: State, e: Event, id: CallId, res: Channel.Result)
    requires Enabled(s, e) && id in s.calls && Phase(s.calls[id]) && Under(s.calls[id], res)
    requires Own(s, e, id) && !e.ResolveOwn? && !e.Take? && !e.RunCallback?
    ensures id in Next(s, e).calls && Under(Next(s, e).calls[id], res)
  {
    match e
    case Push(_, _) =>
    case Check(_) =>
    case Release(_) =>
    case _ =>
  }

  /** A result that was not on its way before was decided by this event. */
  lemma NewIsDecided(s: State, e: Event, id: CallId, res: Channel.Result)
    requires Inv(s) && Enabled(s, e) && id in Next(s, e).calls && Under(Next(s, e).calls[id], res)
    ensures Decides(s, e, id, res) || (id in s.calls && Under(s.calls[id], res))
  {
    hide Owned, HashPlaced, FiringPlaced, SlotsPlaced, CallsLocated, Closing, Phase;
    match e
    case ResolveOwn(i) =>
      var r := Failure(s.calls[i].code, s.calls[i].pc.err);
      ResolveDecides(s, r, id, res);
    case Packet(k, data) => ResolveDecides(s, Reply(k, data), id, res);
    case RunCallback(f) => CallbackBrought(s, f, id, res);
    case DropReject => RejectDecides(s, id, res);
    case Take(i) => TakeBrought(s, i, id, res);
    case _ => OwnPcStayed(s, e, id, res);
  }

  lemma ResolveDecides(s: State, r: Channel.Result, id: CallId, res: Channel.Result)
    requires Inv(s) && id in DoResolve(s, r.code, r).calls && Under(DoResolve(s, r.code, r).calls[id], res)
    ensures id in s.calls && (Under(s.calls[id], res) || (res == r && HoldsEntry(s, id, r.code)))
  {
    if r.code in s.store.hash {
      var i := ResolveMoves(s, r.code, r);
      assert HolderAt(s, s.store.hash[r.code], InHash);
    }
  }

  lemma CallbackBrought(s: State, f: Fire, id: CallId, res: Channel.Result)
    requires Owned(s) && FiringPlaced(s) && Enabled(s, RunCallback(f))
    requires id in Next(s, RunCallback(f)).calls && Under(Next(s, RunCallback(f)).calls[id], res)
    ensures id in s.calls && Under(s.calls[id], res)
  {
    assert HolderAt(s, f.fn, Firing(f.res));
  }

  lemma TakeBrought(s: State, i: CallId, id: CallId, res: Channel.Result)
    requires Owned(s) && SlotsPlaced(s) && Enabled(s, Take(i))
    requires id in Next(s, Take(i)).calls && Under(Next(s, Take(i)).calls[id], res)
    ensures id in s.calls && Under(s.calls[id], res)
  {
    assert HolderAt(s, s.calls[i].fn, InSlot(s.slots[s.calls[i].fn][0]));
  }

  lemma RejectDecides(s: State, id: CallId, res: Channel.Result)
    requires Inv(s) && Enabled(s, DropReject)
    requires id in Next(s, DropReject).calls && Under(Next(s, DropReject).calls[id], res)
    ensures id in s.calls && (Under(s.calls[id], res) || Decides(s, DropReject, id, res))
  {
    RejectedAre(s);
    if s.calls[id].at == InHash {
      assert Located(s, s.calls[id]) && Phase(s.calls[id]);
    }
  }

  lemma OwnPcStayed(s: State, e: Event, id: CallId, res: Channel.Result)
    requires Enabled(s, e) && id in Next(s, e).calls && Under(Next(s, e).calls[id], res)
    requires !e.ResolveOwn? && !e.Packet? && !e.RunCallback? && !e.DropReject? && !e.Take?
    ensures id in s.calls && Under(s.calls[id], res)
  {
    hide Enabled, Next;
    if id !in s.calls {
      NewIsAcquired(s, e, id);
    } else if Own(s, e, id) {
      OwnBrought(s, e, id, res);
    } else {
      OthersRest(s, e, id);
    }
  }

  lemma OwnBrought(s: State, e: Event, id: CallId, res: Channel.Result)
    requires Enabled(s, e) && id in s.calls && Own(s, e, id) && !e.ResolveOwn? && !e.Take? && !e.RunCallback?
    requires id in Next(s, e).calls && Under(Next(s, e).calls[id], res)
    ensures Under(s.calls[id], res)
  {
    match e
    case Push(_, _) =>
    case Check(_) =>
    case Release(_) =>
    case _ =>
  }

  // ---------------------------------------------------------------------------------------------
  // Runs
  // ---------------------------------------------------------------------------------------------

  /** Whatever takes a call's entry out of the store decides its result: nothing later changes it. */
  lemma {:induction false} DecidedIsDelivered(ss: seq<State>, es: seq<Event>, i: nat, j: nat, id: CallId,
                                              res: Channel.Result)
    requires Run(ss, es) && i < j < |ss| && Decides(ss[i], es[i], id, res)
    ensures id in ss[j].calls && Under(ss[j].calls[id], res)
    ensures HasResult(ss[j].calls[id]) ==> ss[j].calls[id].pc.res == res
    decreases j
  {
    hide Enabled, Next, Inv, Decides;
    RunInv(ss, es, j - 1);
    if i == j - 1 {
      DecidedIsUnder(ss[i], es[i], id, res);
    } else {
      DecidedIsDelivered(ss, es, i, j - 1, id, res);
      UnderStays(ss[j - 1], es[j - 1], id, res);
    }
    RunInv(ss, es, j);
    TakenIsHad(ss[j], id);
  }

  lemma TakenIsHad(s: State, id: CallId)
    requires Inv(s) && id in s.calls
    ensures HasResult(s.calls[id]) <==> s.calls[id].at == Taken
  {
    assert Phase(s.calls[id]);
  }

  /** A reply read while the call's entry is filed is what the call returns, with its data. */
  lemma ReplyIsDelivered(ss: seq<State>, es: seq<Event>, i: nat, j: nat, id: CallId, k: Code, data: nat)
    requires Run(ss, es) && i < j < |ss| && es[i] == Packet(k, data) && HoldsEntry(ss[i], id, k)
    ensures id in ss[j].calls && (HasResult(ss[j].calls[id]) ==> ss[j].calls[id].pc.res == Reply(k, data))
  {
    DecidedIsDelivered(ss, es, i, j, id, Reply(k, data));
  }

  /**
   Conversely every result a call has was decided while its own entry was filed: a reply by the packet that
   carries it, a failure by the Drop that found the entry, or by a call of that code that was failing so.
   */
  lemma {:induction false} ResultIsDecided(ss: seq<State>, es: seq<Event>, j: nat, id: CallId, res: Channel.Result)
    returns (i: nat)
    requires Run(ss, es) && j < |ss| && id in ss[j].calls && Under(ss[j].calls[id], res)
    ensures i < j && Decides(ss[i], es[i], id, res)
    decreases j
  {
    hide Enabled, Next, Inv, Decides, Under;
    if j == 0 {
      assert false;
    } else {
      RunInv(ss, es, j - 1);
      NewIsDecided(ss[j - 1], es[j - 1], id, res);
      i := j - 1;
      if !Decides(ss[i], es[i], id, res) {
        i := ResultIsDecided(ss, es, j - 1, id, res);
      }
    }
  }

  /** A call fails only with an error it was told: by the check, by its send, or by its timer or context. */
  lemma {:induction false} FailureIsNamed(ss: seq<State>, es: seq<Event>, j: nat, id: CallId, err: Error)
    returns (i: nat)
    requires Run(ss, es) && j < |ss| && Failing(ss[j], id, err)
    ensures i < j && Names(ss[i], es[i], id, err)
    decreases j
  {
    hide Enabled, Next, Inv, Names, Failing;
    if j == 0 {
      NobodyFails(id, err);
      assert false;
    } else {
      RunInv(ss, es, j - 1);
      NewIsNamed(ss[j - 1], es[j - 1], id, err);
      i := j - 1;
      if !Names(ss[i], es[i], id, err) {
        i := FailureIsNamed(ss, es, j - 1, id, err);
      }
    }
  }

  lemma NobodyFails(id: CallId, err: Error)
    ensures !Failing(Init, id, err)
  {
  }

  lemma NewIsNamed(s: State, e: Event, id: CallId, err: Error)
    requires Inv(s) && Enabled(s, e) && Failing(Next(s, e), id, err)
    ensures Names(s, e, id, err) || Failing(s, id, err)
  {
    hide Inv, Enabled, Next;
    match e
    case ResolveOwn(i) => ResolvedGoesOn(s, i, id);
    case Packet(k, data) => PacketKeepsPcs(s, k, data);
    case RunCallback(f) => CallbackKeepsPcs(s, f);
    case DropReject => RejectKeepsPcs(s);
    case _ => OwnNames(s, e, id, err);
  }

  lemma ResolveKeepsPcs(s: State, k: Code, r: Channel.Result)
    ensures DoResolve(s, k, r).calls.Keys == s.calls.Keys
    ensures forall i :: i in s.calls ==> DoResolve(s, k, r).calls[i].pc == s.calls[i].pc
  {
  }

  lemma PacketKeepsPcs(s: State, k: Code, data: nat)
    requires Enabled(s, Packet(k, data))
    ensures Next(s, Packet(k, data)).calls.Keys == s.calls.Keys
    ensures forall i :: i in s.calls ==> Next(s, Packet(k, data)).calls[i].pc == s.calls[i].pc
  {
    hide DoResolve;
    ResolveKeepsPcs(s, k, Reply(k, data));
  }

  lemma ResolvedGoesOn(s: State, i: CallId, id: CallId)
    requires Enabled(s, ResolveOwn(i))
    ensures var s' := Next(s, ResolveOwn(i));
      && s'.calls.Keys == s.calls.Keys
      && (id in s.calls ==>
            if id == i then s'.calls[i].pc in {Waiting, Receiving} else s'.calls[id].pc == s.calls[id].pc)
  {
    hide DoResolve;
    ResolveKeepsPcs(s, s.calls[i].code, Failure(s.calls[i].code, s.calls[i].pc.err));
  }

  lemma CallbackKeepsPcs(s: State, f: Fire)
    requires Enabled(s, RunCallback(f))
    ensures Next(s, RunCallback(f)).calls.Keys == s.calls.Keys
    ensures forall i :: i in s.calls ==> Next(s, RunCallback(f)).calls[i].pc == s.calls[i].pc
  {
  }

  lemma RejectKeepsPcs(s: State)
    requires Enabled(s, DropReject)
    ensures Next(s, DropReject).calls.Keys == s.calls.Keys
    ensures forall i :: i in s.calls ==> Next(s, DropReject).calls[i].pc == s.calls[i].pc
  {
  }

  lemma OwnNames(s: State, e: Event, id: CallId, err: Error)
    requires Enabled(s, e) && Failing(Next(s, e), id, err)
    requires !e.ResolveOwn? && !e.Packet? && !e.RunCallback? && !e.DropReject?
    ensures Names(s, e, id, err) || Failing(s, id, err)
  {
    hide Enabled, Next, Names;
    if id !in s.calls {
      NewIsAcquired(s, e, id);
    } else if Own(s, e, id) {
      OwnFails(s, e, id, err);
    } else {
      OthersRest(s, e, id);
    }
  }

  lemma NewIsAcquired(s: State, e: Event, id: CallId)
    requires Enabled(s, e) && !e.Packet? && !e.RunCallback? && !e.ResolveOwn?
    requires id !in s.calls && id in Next(s, e).calls
    ensures Next(s, e).calls[id].pc == Acquired && Next(s, e).calls[id].at == Nowhere
  {
  }

  lemma OwnFails(s: State, e: Event, id: CallId, err: Error)
    requires Enabled(s, e) && id in s.calls && Own(s, e, id) && !e.ResolveOwn? && !e.RunCallback?
    requires Failing(Next(s, e), id, err)
    ensures Names(s, e, id, err)
  {
    match e
    case Push(_, _) =>
    case Check(_) =>
    case Take(_) =>
    case Release(_) =>
    case _ =>
  }

  // ---------------------------------------------------------------------------------------------
  // Who gets past the check
  // ---------------------------------------------------------------------------------------------

  /** Stopping and hijacking are told by the events. */
  lemma {:induction false} FlagsTell(ss: seq<State>, es: seq<Event>, i: nat)
    requires Run(ss, es) && i < |ss|
    ensures ss[i].stopped <==> DropLock in es[..i] || ShutLock in es[..i]
    ensures ss[i].hijacked <==> Event.Hijack in es[..i]
    decreases i
  {
    hide Enabled, Next;
    if i > 0 {
      FlagsTell(ss, es, i - 1);
      FlagStep(ss[i - 1], es[i - 1]);
      assert es[..i] == es[..i - 1] + [es[i - 1]];
    }
  }

  lemma FlagStep(s: State, e: Event)
    requires Enabled(s, e)
    ensures Next(s, e).stopped <==> s.stopped || e == DropLock || e == ShutLock
    ensures Next(s, e).hijacked <==> s.hijacked || e == Event.Hijack
  {
    hide DoResolve, Moved, RejectedCalls, Rejections, Rejected, Pushed, EmptyChan;
    match e
    case ResolveOwn(i) => StoreKeepsFlags(s, s.calls[i].code, Failure(s.calls[i].code, s.calls[i].pc.err));
    case Packet(k, data) => StoreKeepsFlags(s, k, Reply(k, data));
    case _ =>
  }

  lemma StoreKeepsFlags(s: State, k: Code, r: Channel.Result)
    ensures var s' := DoResolve(s, k, r);
      s'.stopped == s.stopped && s'.hijacked == s.hijacked && s'.calls.Keys == s.calls.Keys
  {
  }

  /** A call may send exactly when nothing was dropped, shut down or hijacked before it looked. */
  lemma PassesExactly(ss: seq<State>, es: seq<Event>, i: nat, id: CallId)
    requires Run(ss, es) && i < |es| && es[i] == Check(id)
    ensures id in ss[i + 1].calls
    ensures ss[i + 1].calls[id].pc == Sending && ss[i + 1].calls[id].passed
      <==> DropLock !in es[..i] && ShutLock !in es[..i] && Event.Hijack !in es[..i]
    ensures ss[i + 1].calls[id].pc == Sending || ss[i + 1].calls[id].pc ==
      SendFailed(if DropLock in es[..i] || ShutLock in es[..i] then Error.Stopped else Error.Hijacked)
  {
    FlagsTell(ss, es, i);
  }

  /** So after the first of the three events no further call sends anything. */
  lemma {:induction false} NobodyPassesAfter(ss: seq<State>, es: seq<Event>, i: nat, j: nat, id: CallId)
    requires Run(ss, es) && i < j < |ss| && es[i] in {DropLock, ShutLock, Event.Hijack}
    requires id in ss[j].calls && ss[j].calls[id].passed
    ensures id in ss[i].calls && ss[i].calls[id].passed
    decreases j
  {
    hide Enabled, Next;
    PassedBefore(ss[j - 1], es[j - 1], id);
    FlagsTell(ss, es, j - 1);
    if i < j - 1 {
      assert es[i] in es[..j - 1];
      NobodyPassesAfter(ss, es, i, j - 1, id);
    }
  }

  lemma PassedBefore(s: State, e: Event, id: CallId)
    requires Enabled(s, e) && id in Next(s, e).calls && Next(s, e).calls[id].passed
    ensures id in s.calls && (s.calls[id].passed || (e == Check(id) && !s.stopped && !s.hijacked))
  {
    match e
    case ResolveOwn(i) => ResolvePassed(s, s.calls[i].code, Failure(s.calls[i].code, s.calls[i].pc.err));
    case Packet(code, data) => ResolvePassed(s, code, Reply(code, data));
    case RunCallback(f) => MovedPassed(s, f.fn, InSlot(f.res));
    case DropReject => assert RejectedCalls(s)[id].passed == s.calls[id].passed;
    case _ =>
  }

  // ---------------------------------------------------------------------------------------------
  // Sync numbers that are used again
  // ---------------------------------------------------------------------------------------------

  function Pushes(es: seq<Event>): nat {
    if es == [] then 0 else Pushes(es[..|es| - 1]) + Bit(es[|es| - 1].Push?)
  }

  /** The first call is numbered 1 and the 2^32th is numbered 0. */
  function Ordinal(sync: U32): nat { if sync == 0 then TWO_TO_THE_32 else sync }

  predicate IsFiled(c: Call) { c.pc != Acquired }

  /** While the counter has not gone round, the n-th call filed has the number n. */
  ghost predicate Numbered(s: State, n: nat) {
    && n <= TWO_TO_THE_32 && s.store.sync == n % TWO_TO_THE_32
    && (forall k :: k in s.store.hash ==> Ordinal(k.sync) <= n)
    && (forall i :: i in s.calls && IsFiled(s.calls[i]) ==> Ordinal(s.calls[i].code.sync) <= n)
    && (forall i, j :: i in s.calls && j in s.calls && i != j && IsFiled(s.calls[i]) && IsFiled(s.calls[j]) ==>
          s.calls[i].code.sync != s.calls[j].code.sync)
  }

  ghost predicate SameCodes(s: State, s': State) {
    && s'.store.sync == s.store.sync && s'.store.hash.Keys <= s.store.hash.Keys
    && forall i :: i in s'.calls && IsFiled(s'.calls[i]) ==>
         i in s.calls && IsFiled(s.calls[i]) && s'.calls[i].code == s.calls[i].code
  }

  lemma NumberedFrame(s: State, s': State, n: nat)
    requires Numbered(s, n) && SameCodes(s, s')
    ensures Numbered(s', n)
  {
  }

  lemma CodesStay(s: State, e: Event)
    requires Enabled(s, e) && !e.Push?
    ensures SameCodes(s, Next(s, e))
  {
    hide DoResolve, Moved, RejectedCalls, Rejections;
    match e
    case ResolveOwn(i) => StoreKeepsCodes(s, s.calls[i].code, Failure(s.calls[i].code, s.calls[i].pc.err));
    case Packet(k, data) => StoreKeepsCodes(s, k, Reply(k, data));
    case RunCallback(f) => MovedKeepsCodes(s, f.fn, InSlot(f.res));
    case DropReject => RejectedKeepCodes(s);
    case _ => PlainKeepsCodes(s, e);
  }

  lemma StoreKeepsCodes(s: State, k: Code, r: Channel.Result)
    ensures var s' := DoResolve(s, k, r);
      && s'.calls.Keys == s.calls.Keys && s'.store.sync == s.store.sync && s'.store.hash.Keys <= s.store.hash.Keys
      && forall i :: i in s.calls ==> s'.calls[i].pc == s.calls[i].pc && s'.calls[i].code == s.calls[i].code
  {
    if k in s.store.hash {
      hide Moved;
      MovedKeepsCodes(s, s.store.hash[k], Firing(r));
    }
  }

  lemma MovedKeepsCodes(s: State, fn: FnId, at: Where)
    ensures Moved(s, fn, at).Keys == s.calls.Keys
    ensures forall i :: i in s.calls ==> Moved(s, fn, at)[i].pc == s.calls[i].pc
    ensures forall i :: i in s.calls ==> Moved(s, fn, at)[i].code == s.calls[i].code
  {
  }

  lemma RejectedKeepCodes(s: State)
    ensures RejectedCalls(s).Keys == s.calls.Keys
    ensures forall i :: i in s.calls ==> RejectedCalls(s)[i].pc == s.calls[i].pc
    ensures forall i :: i in s.calls ==> RejectedCalls(s)[i].code == s.calls[i].code
    ensures Rejected(s.store).hash == map[] && Rejected(s.store).sync == s.store.sync
  {
  }

  lemma PlainKeepsCodes(s: State, e: Event)
    requires Enabled(s, e) && !e.Push? && !e.ResolveOwn? && !e.Packet? && !e.RunCallback? && !e.DropReject?
    ensures SameCodes(s, Next(s, e))
  {
    hide Enabled, Next;
    PlainKeepsStore(s, e);
    forall i | i in Next(s, e).calls && IsFiled(Next(s, e).calls[i])
      ensures i in s.calls && IsFiled(s.calls[i]) && Next(s, e).calls[i].code == s.calls[i].code
    {
      if i !in s.calls {
        NewIsAcquired(s, e, i);
      } else if Own(s, e, i) {
        OwnKeepsCode(s, e, i);
      } else {
        OthersRest(s, e, i);
      }
    }
  }

  lemma PlainKeepsStore(s: State, e: Event)
    requires Enabled(s, e) && !e.Push? && !e.ResolveOwn? && !e.Packet? && !e.RunCallback? && !e.DropReject?
    ensures Next(s, e).store.sync == s.store.sync && Next(s, e).store.hash == s.store.hash
  {
    hide DoResolve, Moved, RejectedCalls, Rejections, Rejected, Pushed, FirstFree;
    match e
    case ShutEmpty =>
    case _ =>
  }

  lemma OwnKeepsCode(s: State, e: Event, i: CallId)
    requires Enabled(s, e) && i in s.calls && Own(s, e, i) && !e.Push? && !e.ResolveOwn? && !e.RunCallback?
    ensures i in Next(s, e).calls && IsFiled(s.calls[i]) && Next(s, e).calls[i].code == s.calls[i].code
  {
  }

  lemma PushNumbers(s: State, id: CallId, sync: U32, n: nat)
    requires Numbered(s, n) && n < TWO_TO_THE_32 && Enabled(s, Push(id, sync))
    ensures Numbered(Next(s, Push(id, sync)), n + 1) && Ordinal(sync) == n + 1
  {
    NextIsFree(s, s.calls[id].msg, sync, n);
  }

  lemma NextIsFree(s: State, msg: U32, sync: U32, n: nat)
    requires Numbered(s, n) && n < TWO_TO_THE_32 && FirstFree(s.store, msg, sync)
    ensures sync == (n + 1) % TWO_TO_THE_32
  {
    assert Bump(s.store.sync, 1) == (n + 1) % TWO_TO_THE_32;
    assert Code(msg, Bump(s.store.sync, 1)) !in s.store.hash;
  }

  lemma {:induction false} RunNumbers(ss: seq<State>, es: seq<Event>, i: nat)
    requires Run(ss, es) && i < |ss| && Pushes(es[..i]) <= TWO_TO_THE_32
    ensures Numbered(ss[i], Pushes(es[..i]))
    decreases i
  {
    hide Enabled, Next, Inv, Numbered;
    if i == 0 {
      NothingNumbered();
    } else {
      assert es[..i][..i - 1] == es[..i - 1];
      RunNumbers(ss, es, i - 1);
      RunInv(ss, es, i - 1);
      match es[i - 1] {
        case Push(id, sync) => PushNumbers(ss[i - 1], id, sync, Pushes(es[..i - 1]));
        case _ =>
          CodesStay(ss[i - 1], es[i - 1]);
          NumberedFrame(ss[i - 1], ss[i], Pushes(es[..i - 1]));
      }
    }
  }

  lemma NothingNumbered()
    ensures Numbered(Init, 0)
  {
  }

  /** Among the first 2^32 calls no two have the same number, so a failing call resolves no entry but its own. */
  lemma FailureIsOwn(ss: seq<State>, es: seq<Event>, i: nat, id: CallId, res: Channel.Result)
    requires Run(ss, es) && i < |es| && Pushes(es[..i]) <= TWO_TO_THE_32
    requires Decides(ss[i], es[i], id, res) && es[i].ResolveOwn?
    ensures es[i] == ResolveOwn(id)
  {
    hide Enabled, Next, Owned, Placed, Closing;
    RunNumbers(ss, es, i);
    RunInv(ss, es, i);
    EntryOf(ss[i], id, res.code);
    assert Phase(ss[i].calls[id]) && Phase(ss[i].calls[es[i].id]);
  }

  /** The first call that has its number again. */
  const LATE: CallId := TWO_TO_THE_32

  const AGAIN: Code := Code(0, 1)

  /** Nobody tells that call to fail, and nothing is dropped. */
  predicate Quiet(e: Event) { e != DropReject && !e.SendFail? && !(e.GiveUp? && e.id == LATE) }

  /** `n` calls have been filed and answered; the answer of the first came after its timer had fired. */
  ghost predicate Answered(s: State, n: nat) {
    && 1 <= n <= TWO_TO_THE_32 && s.store.sync == n % TWO_TO_THE_32 && s.store.hash == map[]
    && !s.stopped && !s.hijacked && !s.dropping
    && (forall i: CallId :: i in s.calls <==> i < n) && (forall fn: FnId :: fn in s.slots <==> fn < n)
    && s.calls[0].pc == GivingUp(Timeout) && s.calls[0].code == AGAIN
  }

  ghost predicate QuietRun(ss: seq<State>, es: seq<Event>) {
    Run(ss, es) && forall e :: e in es ==> Quiet(e)
  }

  ghost function Last(ss: seq<State>): State { if ss == [] then Init else ss[|ss| - 1] }

  lemma OneMore(ss: seq<State>, es: seq<Event>, e: Event) returns (ss': seq<State>, es': seq<Event>)
    requires QuietRun(ss, es) && Enabled(Last(ss), e) && Quiet(e)
    ensures QuietRun(ss', es') && Last(ss') == Next(Last(ss), e)
  {
    hide Enabled, Next;
    ss', es' := ss + [Next(Last(ss), e)], es + [e];
  }

  lemma FirstAnswered() returns (ss: seq<State>, es: seq<Event>)
    ensures QuietRun(ss, es) && Answered(Last(ss), 1)
  {
    hide QuietRun, Enabled, Next, Answered, Alone;
    ss, es := NothingYet();
    FirstFiled();
    ss, es := OneMore(ss, es, Acquire(0, 0, 0));
    ss, es := OneMore(ss, es, Push(0, 1));
    var s1, s2, s3 := FirstGivesUp(Last(ss));
    ss, es := OneMore(ss, es, Check(0));
    ss, es := OneMore(ss, es, SendOk(0));
    ss, es := OneMore(ss, es, GiveUp(0, Timeout));
    FirstIsAnswered(Last(ss));
    ss, es := OneMore(ss, es, Packet(AGAIN, 7));
  }

  /** One call alone is filed under the first number. */
  ghost predicate Alone(s: State, pc: Pc, passed: bool) {
    && s.store.sync == 1 && s.store.hash == map[AGAIN := 0] && !s.stopped && !s.hijacked && !s.dropping
    && s.calls == map[0 := Call(0, 0, AGAIN, pc, InHash, passed, 0, 0)] && s.slots == map[0 := []]
    && s.owner == map[0 := 0]
  }

  lemma FirstFiled()
    ensures Enabled(Init, Acquire(0, 0, 0)) && Enabled(Next(Init, Acquire(0, 0, 0)), Push(0, 1))
    ensures Alone(Next(Next(Init, Acquire(0, 0, 0)), Push(0, 1)), Filed, false)
  {
    OneIsFree(Init.store, 0);
  }

  lemma FirstGivesUp(s: State) returns (s1: State, s2: State, s3: State)
    requires Alone(s, Filed, false)
    ensures Enabled(s, Check(0)) && s1 == Next(s, Check(0))
    ensures Enabled(s1, SendOk(0)) && s2 == Next(s1, SendOk(0))
    ensures Enabled(s2, GiveUp(0, Timeout)) && s3 == Next(s2, GiveUp(0, Timeout))
    ensures Alone(s3, GivingUp(Timeout), true)
  {
    s1 := Next(s, Check(0));
    s2 := Next(s1, SendOk(0));
    s3 := Next(s2, GiveUp(0, Timeout));
  }

  lemma FirstIsAnswered(s: State)
    requires Alone(s, GivingUp(Timeout), true)
    ensures Enabled(s, Packet(AGAIN, 7)) && Answered(Next(s, Packet(AGAIN, 7)), 1)
  {
    var s' := Next(s, Packet(AGAIN, 7));
    assert s'.store.hash == map[] && s'.calls.Keys == {0} && s'.slots.Keys == {0};
  }

  lemma NothingYet() returns (ss: seq<State>, es: seq<Event>)
    ensures QuietRun(ss, es) && Last(ss) == Init
  {
    ss, es := [Init], [];
  }

  lemma OneIsFree(store: StoreState<FnId>, msg: U32)
    requires store.hash == map[]
    ensures FirstFree(store, msg, (store.sync + 1) % TWO_TO_THE_32)
  {
    assert Bump(store.sync, 1) == (store.sync + 1) % TWO_TO_THE_32;
  }

  lemma OneAnswered(s: State, n: nat, sync: U32)
    requires Answered(s, n) && n < TWO_TO_THE_32 && sync == (n + 1) % TWO_TO_THE_32
    ensures Enabled(s, Acquire(n, n, 0)) && Enabled(Next(s, Acquire(n, n, 0)), Push(n, sync))
    ensures var s' := Next(Next(s, Acquire(n, n, 0)), Push(n, sync));
      Enabled(s', Packet(Code(0, sync), 7)) && Answered(Next(s', Packet(Code(0, sync), 7)), n + 1)
  {
    OneIsFree(s.store, 0);
  }

  lemma {:induction false} AllAnswered(n: nat) returns (ss: seq<State>, es: seq<Event>)
    requires 1 <= n <= TWO_TO_THE_32
    ensures QuietRun(ss, es) && Answered(Last(ss), n)
  {
    hide Enabled, Next, QuietRun, Answered;
    if n == 1 {
      ss, es := FirstAnswered();
    } else {
      ss, es := AllAnswered(n - 1);
      var sync := n % TWO_TO_THE_32;
      OneAnswered(Last(ss), n - 1, sync);
      ss, es := OneMore(ss, es, Acquire(n - 1, n - 1, 0));
      ss, es := OneMore(ss, es, Push(n - 1, sync));
      ss, es := OneMore(ss, es, Packet(Code(0, sync), 7));
    }
  }

  /** The late call is filed under the number of the first, which has not resolved it yet. */
  ghost predicate Twice(s: State) {
    && s.store.hash == map[AGAIN := LATE] && !s.stopped && !s.hijacked && !s.dropping
    && LATE in s.calls && s.calls[LATE] == Call(0, LATE, AGAIN, Filed, InHash, false, 0, 0)
    && LATE in s.owner && s.owner[LATE] == LATE && LATE in s.slots && s.slots[LATE] == []
    && 0 in s.calls && s.calls[0].pc == GivingUp(Timeout) && s.calls[0].code == AGAIN
  }

  lemma LateIsFiled(s: State)
    requires Answered(s, TWO_TO_THE_32)
    ensures Enabled(s, Acquire(LATE, LATE, 0)) && Enabled(Next(s, Acquire(LATE, LATE, 0)), Push(LATE, 1))
    ensures Twice(Next(Next(s, Acquire(LATE, LATE, 0)), Push(LATE, 1)))
  {
    OneIsFree(s.store, 0);
  }

  lemma LateFails(s: State) returns (s1: State, s2: State, s3: State)
    requires Twice(s)
    ensures Enabled(s, Check(LATE)) && s1 == Next(s, Check(LATE))
    ensures Enabled(s1, SendOk(LATE)) && s2 == Next(s1, SendOk(LATE))
    ensures Enabled(s2, ResolveOwn(0)) && s3 == Next(s2, ResolveOwn(0))
    ensures Mistaken(s3)
  {
    s1 := Next(s, Check(LATE));
    s2 := Next(s1, SendOk(LATE));
    s3 := Next(s2, ResolveOwn(0));
  }

  /** The late call waits, and the failure of the first is on its way to it. */
  ghost predicate Mistaken(s: State) {
    && LATE in s.calls && s.calls[LATE].pc == Waiting && s.calls[LATE].fn == LATE
    && LATE in s.owner && s.owner[LATE] == LATE && LATE in s.slots && s.slots[LATE] == []
    && Fire(LATE, Failure(AGAIN, Timeout)) in s.firing
  }

  lemma LateReceives(s: State) returns (s': State)
    requires Mistaken(s)
    ensures var e := RunCallback(Fire(LATE, Failure(AGAIN, Timeout)));
      Enabled(s, e) && s' == Next(s, e)
    ensures Enabled(s', Take(LATE)) && LATE in Next(s', Take(LATE)).calls
    ensures Next(s', Take(LATE)).calls[LATE].pc == Received(Failure(AGAIN, Timeout))
  {
    s' := Next(s, RunCallback(Fire(LATE, Failure(AGAIN, Timeout))));
  }

  /**
   After 2^32 calls a number is used again: a call whose timer fired before its reply was read, and that only
   now resolves its number, makes a new call fail that nobody told to.
   */
  lemma ReuseMixesUp() returns (ss: seq<State>, es: seq<Event>)
    ensures Run(ss, es) && forall e :: e in es ==> Quiet(e)
    ensures LATE in Last(ss).calls && Last(ss).calls[LATE].pc == Received(Failure(AGAIN, Timeout))
  {
    hide QuietRun, Enabled, Next, Answered, Twice, Mistaken;
    ss, es := AllAnswered(TWO_TO_THE_32);
    LateIsFiled(Last(ss));
    ss, es := OneMore(ss, es, Acquire(LATE, LATE, 0));
    ss, es := OneMore(ss, es, Push(LATE, 1));
    var s1, s2, s3 := LateFails(Last(ss));
    ss, es := OneMore(ss, es, Check(LATE));
    ss, es := OneMore(ss, es, SendOk(LATE));
    ss, es := OneMore(ss, es, ResolveOwn(0));
    var s4 := LateReceives(Last(ss));
    ss, es := OneMore(ss, es, RunCallback(Fire(LATE, Failure(AGAIN, Timeout))));
    ss, es := OneMore(ss, es, Take(LATE));
    QuietTells(ss, es);
  }

  lemma QuietTells(ss: seq<State>, es: seq<Event>)
    requires QuietRun(ss, es)
    ensures Run(ss, es) && forall e :: e in es ==> Quiet(e)
  {
  }

  // ---------------------------------------------------------------------------------------------
  // What goes on
  // ---------------------------------------------------------------------------------------------

  lemma Extended(ss: seq<State>, es: seq<Event>, e: Event) returns (ss': seq<State>)
    requires Run(ss, es) && Enabled(Last(ss), e)
    ensures Run(ss', es + [e]) && |ss'| == |ss| + 1 && Last(ss') == Next(Last(ss), e)
    ensures forall i :: 0 <= i < |ss| ==> ss'[i] == ss[i]
  {
    hide Enabled, Next;
    ss' := ss + [Next(Last(ss), e)];
  }

  /** What a new call needs: a free sync number, and a result function that is fresh or given back. */
  ghost predicate Ready(s: State, id: CallId, fn: FnId, msg: U32, sync: U32) {
    id !in s.calls && (fn in s.pool || fn !in s.slots) && FirstFree(s.store, msg, sync)
  }

  lemma CallFiles(s: State, id: CallId, fn: FnId, msg: U32, sync: U32)
    returns (s1: State, s2: State, s3: State, s4: State)
    requires Ready(s, id, fn, msg, sync) && !s.stopped && !s.hijacked && !s.dropping
    ensures Enabled(s, Acquire(id, fn, msg)) && s1 == Next(s, Acquire(id, fn, msg))
    ensures Enabled(s1, Push(id, sync)) && s2 == Next(s1, Push(id, sync))
    ensures Enabled(s2, Check(id)) && s3 == Next(s2, Check(id))
    ensures Enabled(s3, SendOk(id)) && s4 == Next(s3, SendOk(id))
    ensures HoldsEntry(s4, id, Code(msg, sync)) && id in s4.calls && s4.calls[id].pc == Waiting
    ensures s4.calls[id].fn == fn
  {
    s1 := Next(s, Acquire(id, fn, msg));
    assert s1.store == s.store;
    s2 := Next(s1, Push(id, sync));
    s3 := Next(s2, Check(id));
    s4 := Next(s3, SendOk(id));
  }

  /** In a reachable state the slot of a call whose result is on its way is empty. */
  lemma AnswerArrives(s: State, id: CallId, k: Code, data: nat) returns (s1: State, s2: State, s3: State)
    requires Inv(s) && HoldsEntry(s, id, k) && s.calls[id].pc == Waiting
    ensures Enabled(s, Packet(k, data)) && s1 == Next(s, Packet(k, data))
    ensures var e := RunCallback(Fire(s.calls[id].fn, Reply(k, data)));
      Enabled(s1, e) && s2 == Next(s1, e)
    ensures Enabled(s2, Take(id)) && s3 == Next(s2, Take(id))
    ensures id in s3.calls && s3.calls[id].pc == Received(Reply(k, data))
  {
    hide FiringPlaced, CallsLocated, Closing, Phases;
    EntryOf(s, id, k);
    var i := ResolveMoves(s, k, Reply(k, data));
    SlotIsFree(s, id);
    s1 := Next(s, Packet(k, data));
    s2 := Next(s1, RunCallback(Fire(s.calls[id].fn, Reply(k, data))));
    s3 := Next(s2, Take(id));
  }

  lemma SlotIsFree(s: State, id: CallId)
    requires Owned(s) && SlotsPlaced(s) && id in s.calls && s.calls[id].at == InHash && Active(s.calls[id])
    ensures s.calls[id].fn in s.slots && s.slots[s.calls[id].fn] == []
  {
  }

  /**
   From every reachable state of a channel that is not dropped, shut down or hijacked a new call that is sent
   and answered returns the answer.
   */
  lemma CallIsAnswered(ss: seq<State>, es: seq<Event>, id: CallId, fn: FnId, msg: U32, sync: U32, data: nat)
    returns (ss': seq<State>, es': seq<Event>)
    requires Run(ss, es) && Ready(Last(ss), id, fn, msg, sync)
    requires !Last(ss).stopped && !Last(ss).hijacked && !Last(ss).dropping
    ensures Run(ss', es') && es' == es +
      [Acquire(id, fn, msg), Push(id, sync), Check(id), SendOk(id), Packet(Code(msg, sync), data),
       RunCallback(Fire(fn, Reply(Code(msg, sync), data))), Take(id)]
    ensures id in Last(ss').calls && Last(ss').calls[id].pc == Received(Reply(Code(msg, sync), data))
  {
    hide Enabled, Next, Ready, HoldsEntry, Inv;
    var k := Code(msg, sync);
    var s1, s2, s3, s4 := CallFiles(Last(ss), id, fn, msg, sync);
    ss' := Extended(ss, es, Acquire(id, fn, msg));
    ss' := Extended(ss', es + [Acquire(id, fn, msg)], Push(id, sync));
    es' := es + [Acquire(id, fn, msg)] + [Push(id, sync)];
    ss' := Extended(ss', es', Check(id));
    ss' := Extended(ss', es' + [Check(id)], SendOk(id));
    es' := es' + [Check(id)] + [SendOk(id)];
    RunInv(ss', es', |es'|);
    var t1, t2, t3 := AnswerArrives(Last(ss'), id, k, data);
    ss' := Extended(ss', es', Packet(k, data));
    ss' := Extended(ss', es' + [Packet(k, data)], RunCallback(Fire(fn, Reply(k, data))));
    es' := es' + [Packet(k, data)] + [RunCallback(Fire(fn, Reply(k, data)))];
    ss' := Extended(ss', es', Take(id));
    es' := es' + [Take(id)];
  }

  /** Shutdown waits for nothing but calls that are still filed. */
  lemma ShutdownGoesOn(ss: seq<State>, es: seq<Event>, i: nat) returns (e: Event)
    requires Run(ss, es) && i < |ss| && ss[i].shut != Idle && ss[i].shut != StopperClosed && ss[i].store.hash == map[]
    ensures Enabled(ss[i], e) && e in {ShutEmpty, ShutPass, ShutStop}
  {
    RunInv(ss, es, i);
    e := if ss[i].shut == Callbacks then ShutEmpty else if ss[i].shut.Awaiting? then ShutPass else ShutStop;
  }

  /** A channel can be dropped at any time, and that fails every call that is filed. */
  lemma DropFailsAll(ss: seq<State>, es: seq<Event>) returns (ss': seq<State>)
    requires Run(ss, es) && DropLock !in es
    ensures Run(ss', es + [DropLock, DropReject])
    ensures Last(ss').store.hash == map[] && Last(ss').stopped && !Last(ss').dropping
    ensures forall id, k :: HoldsEntry(Last(ss), id, k) ==>
      id in Last(ss').calls && Under(Last(ss').calls[id], Failure(k, DroppedConn))
  {
    hide Enabled, Next, HoldsEntry, Under, Inv;
    assert es[..|es|] == es;
    DropTells(ss, es, |es|);
    DropSteps(Last(ss));
    ss' := Extended(ss, es, DropLock);
    var s := Last(ss');
    RunInv(ss', es + [DropLock], |es| + 1);
    forall id, k | HoldsEntry(s, id, k)
      ensures id in Next(s, DropReject).calls && Under(Next(s, DropReject).calls[id], Failure(k, DroppedConn))
    {
      DecidedIsUnder(s, DropReject, id, Failure(k, DroppedConn));
    }
    ss' := Extended(ss', es + [DropLock], DropReject);
    assert es + [DropLock] + [DropReject] == es + [DropLock, DropReject];
  }

  lemma DropSteps(s: State)
    requires !s.dropped && !s.dropping
    ensures Enabled(s, DropLock) && Enabled(Next(s, DropLock), DropReject)
    ensures var s' := Next(Next(s, DropLock), DropReject);
      s'.store.hash == map[] && s'.stopped && !s'.dropping
    ensures forall id, k :: HoldsEntry(s, id, k) ==> HoldsEntry(Next(s, DropLock), id, k)
  {
  }

  lemma {:induction false} DropTells(ss: seq<State>, es: seq<Event>, i: nat)
    requires Run(ss, es) && i < |ss|
    ensures ss[i].dropped <==> DropLock in es[..i]
    ensures ss[i].dropping ==> ss[i].dropped
    decreases i
  {
    hide Enabled, Next;
    if i > 0 {
      DropTells(ss, es, i - 1);
      DropFlagStep(ss[i - 1], es[i - 1]);
      assert es[..i] == es[..i - 1] + [es[i - 1]];
    }
  }

  lemma DropFlagStep(s: State, e: Event)
    requires Enabled(s, e)
    ensures Next(s, e).dropped <==> s.dropped || e == DropLock
    ensures Next(s, e).dropping ==> s.dropping || e == DropLock
  {
    hide DoResolve, Moved, RejectedCalls, Rejections, Rejected, Pushed, EmptyChan;
    match e
    case ResolveOwn(i) => StoreKeepsDrop(s, s.calls[i].code, Failure(s.calls[i].code, s.calls[i].pc.err));
    case Packet(k, data) => StoreKeepsDrop(s, k, Reply(k, data));
    case _ =>
  }

  lemma StoreKeepsDrop(s: State, k: Code, r: Channel.Result)
    ensures var s' := DoResolve(s, k, r);
      s'.dropped == s.dropped && s'.dropping == s.dropping && s'.calls.Keys == s.calls.Keys
  {
  }

  /** A channel without calls that was not stopped shuts down in four steps of its own. */
  lemma IdleShutsDown(s: State) returns (s1: State, s2: State, s3: State, s4: State)
    requires !s.stopped && !s.dropping && s.store.hash == map[]
    ensures Enabled(s, ShutLock) && s1 == Next(s, ShutLock)
    ensures Enabled(s1, ShutEmpty) && s2 == Next(s1, ShutEmpty)
    ensures Enabled(s2, ShutPass) && s3 == Next(s2, ShutPass)
    ensures Enabled(s3, ShutStop) && s4 == Next(s3, ShutStop)
    ensures s4.shut == StopperClosed && s4.stopped && s4.stopperCloses == s.stopperCloses + 1
  {
    s1 := Next(s, ShutLock);
    s2 := Next(s1, ShutEmpty);
    s3 := Next(s2, ShutPass);
    s4 := Next(s3, ShutStop);
  }

  /** A channel that was neither stopped nor hijacked can be hijacked unless it is just being dropped. */
  lemma CanBeHijacked(ss: seq<State>, es: seq<Event>) returns (ss': seq<State>)
    requires Run(ss, es) && DropLock !in es && ShutLock !in es && Event.Hijack !in es
    ensures Run(ss', es + [Event.Hijack]) && Last(ss').hijacked
  {
    assert es[..|es|] == es;
    FlagsTell(ss, es, |es|);
    DropTells(ss, es, |es|);
    ss' := Extended(ss, es, Event.Hijack);
  }
}
