/** The store of pending calls: callbacks filed under a method and a sync number. */
module Pending {

  import opened Common

  /** The 64-bit key: method in the upper half, sync in the lower. */
  datatype Code = Code(msg: U32, sync: U32)

  function Bump(sync: U32, n: nat): U32 { (sync + n) % TWO_TO_THE_32 }

  // ---------------------------------------------------------------------------------------------
  // The store as a value
  // ---------------------------------------------------------------------------------------------

  /**
   `emptied` is the channel handed out to whoever waits for an empty store. Channels are numbered in
   order of creation, and `closed` records every close with its multiplicity: closing twice panics.
   */
  datatype StoreState<Cb> = StoreState(
    hash: map<Code, Cb>, sync: U32, emptied: Option<nat>, next: nat, closed: multiset<nat>)

  ghost predicate GoodStore<Cb>(s: StoreState<Cb>) {
    && (s.emptied.Some? ==> s.emptied.value < s.next && s.emptied.value !in s.closed && s.hash != map[])
    && (forall k :: k in s.closed ==> k < s.next && s.closed[k] == 1)
  }

  /** `sync` is the first number after the current one that is free for the method. */
  ghost predicate FirstFree<Cb>(s: StoreState<Cb>, msg: U32, sync: U32) {
    && Code(msg, sync) !in s.hash
    && exists d: nat ::
         && 1 <= d <= TWO_TO_THE_32 && sync == Bump(s.sync, d)
         && forall e: nat :: 1 <= e < d ==> Code(msg, Bump(s.sync, e)) in s.hash
  }

  function Pushed<Cb>(s: StoreState<Cb>, code: Code, cb: Cb): StoreState<Cb> {
    s.(hash := s.hash[code := cb], sync := code.sync)
  }

  function Emptied<Cb>(s: StoreState<Cb>): StoreState<Cb> {
    if s.emptied.Some? then s.(emptied := None, closed := s.closed + multiset{s.emptied.value}) else s
  }

  function Resolved<Cb>(s: StoreState<Cb>, code: Code): StoreState<Cb> {
    var s' := s.(hash := s.hash - {code});
    if code in s.hash && s'.hash == map[] then Emptied(s') else s'
  }

  function Rejected<Cb>(s: StoreState<Cb>): StoreState<Cb> {
    if s.hash == map[] then s else Emptied(s.(hash := map[]))
  }

  /** The channel to wait on, None standing for the shared channel that is always closed. */
  function EmptyChan<Cb>(s: StoreState<Cb>): (r: (StoreState<Cb>, Option<nat>)) {
    if s.hash == map[] then (s, None)
    else if s.emptied.None? then (s.(emptied := Some(s.next), next := s.next + 1), Some(s.next))
    else (s, s.emptied)
  }

  /** Every operation keeps the store good, so no channel is ever closed twice. */
  lemma StoreStaysGood<Cb>(s: StoreState<Cb>, code: Code, cb: Cb)
    requires GoodStore(s)
    ensures GoodStore(Pushed(s, code, cb)) && GoodStore(Resolved(s, code))
    ensures GoodStore(Rejected(s)) && GoodStore(EmptyChan(s).0)
  {
    assert code in Pushed(s, code, cb).hash;
  }

  /** A wait channel is closed only by an operation that leaves the store empty. */
  lemma ClosedOnlyWhenEmpty<Cb>(s: StoreState<Cb>, code: Code, k: nat)
    requires GoodStore(s)
    ensures Resolved(s, code).closed[k] != s.closed[k] ==> Resolved(s, code).hash == map[] && s.emptied == Some(k)
    ensures Rejected(s).closed[k] != s.closed[k] ==> Rejected(s).hash == map[] && s.emptied == Some(k)
  {
  }

  /** Whoever holds an open wait channel is served: it is the store's current one until it is closed. */
  lemma HeldChannelIsServed<Cb>(s: StoreState<Cb>, code: Code, k: nat)
    requires GoodStore(s) && s.emptied == Some(k)
    ensures Resolved(s, code).emptied == Some(k) || (Resolved(s, code).hash == map[] && k in Resolved(s, code).closed)
    ensures Rejected(s).hash == map[] && k in Rejected(s).closed
    ensures EmptyChan(s) == (s, Some(k))
  {
  }

  ghost function Distance(start: U32, free: U32): (d: nat)
    ensures 1 <= d <= TWO_TO_THE_32 && Bump(start, d) == free
  {
    if free > start then free - start else free - start + TWO_TO_THE_32
  }

  lemma BumpNext(start: U32, d: nat)
    ensures (Bump(start, d) + 1) % TWO_TO_THE_32 == Bump(start, d + 1)
  {
  }

  // ---------------------------------------------------------------------------------------------
  // The store as an object
  // ---------------------------------------------------------------------------------------------

  class Store<Cb> {
    var hash: map<Code, Cb>
    var sync: U32
    var emptied: Option<nat>
    var next: nat
    var closed: multiset<nat>

    constructor ()
      ensures State() == StoreState(map[], 0, None, 0, multiset{})
    {
      hash, sync, emptied, next, closed := map[], 0, None, 0, multiset{};
    }

    ghost function State(): StoreState<Cb>
      reads this
    {
      StoreState(hash, sync, emptied, next, closed)
    }

    /** Files `cb` under the next free sync number of the method; with all taken the loop would not end. */
    method Push(msg: U32, cb: Cb) returns (r: U32)
      requires exists y: U32 :: Code(msg, y) !in hash
      modifies this
      ensures FirstFree(old(State()), msg, r)
      ensures State() == Pushed(old(State()), Code(msg, r), cb)
    {
      ghost var start := sync;
      ghost var free: U32 :| Code(msg, free) !in hash;
      ghost var distance := Distance(start, free);
      ghost var d: nat := 0;
      while true
        invariant hash == old(hash) && emptied == old(emptied) && next == old(next) && closed == old(closed)
        invariant d < distance && sync == Bump(start, d)
        invariant forall e: nat :: 1 <= e <= d ==> Code(msg, Bump(start, e)) in hash
        decreases distance - d
      {
        BumpNext(start, d);
        sync := (sync + 1) % TWO_TO_THE_32;
        d := d + 1;
        r := sync;
        if Code(msg, r) !in hash {
          break;
        }
      }
      hash := hash[Code(msg, r) := cb];
    }

    /** Takes the callback out, if it is still there, for the caller to run. */
    method Resolve(code: Code) returns (cb: Option<Cb>)
      modifies this
      ensures cb == if code in old(hash) then Some(old(hash)[code]) else None
      ensures State() == Resolved(old(State()), code)
    {
      if code !in hash {
        assert hash - {code} == hash;
        return None;
      }
      cb := Some(hash[code]);
      hash := hash - {code};
      if |hash| == 0 {
        OnEmptied();
      }
    }

    /** Takes all callbacks out. */
    method RejectAll() returns (cbs: map<Code, Cb>)
      modifies this
      ensures cbs == old(hash)
      ensures State() == Rejected(old(State()))
    {
      cbs := hash;
      if |hash| == 0 {
        return;
      }
      hash := map[];
      OnEmptied();
    }

    method OnEmptied()
      modifies this`emptied, this`closed
      ensures State() == Emptied(old(State()))
    {
      if emptied.Some? {
        closed := closed + multiset{emptied.value};
        emptied := None;
      }
    }

    method Empty() returns (ch: Option<nat>)
      modifies this`emptied, this`next
      ensures (State(), ch) == EmptyChan(old(State()))
    {
      ch := emptied;
      if |hash| == 0 {
        ch := None;
      } else if ch.None? {
        emptied := Some(next);
        next := next + 1;
        ch := emptied;
      }
    }

    method Size() returns (n: nat)
      ensures n == |hash|
    {
      n := |hash|;
    }
  }
}
