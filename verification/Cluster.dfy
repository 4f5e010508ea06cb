/** The cluster of pools: a peer list, temporarily disabled pools and a termination flag. */
module Cluster {
  import opened Peers
  import opened ClusterReset
  import opened ClusterResetFacts

  /** The peer list without its first pool at address `a`. */
  function Without(ps: seq<Pool>, a: Addr): (r: seq<Pool>)
    ensures a !in Bag(ps) ==> r == ps
  {
    if ps == [] then []
    else
      BagCons(ps[0], ps[1..]);
      assert ps == [ps[0]] + ps[1..];
      if ps[0].addr == a then (BagHas(ps, a); ps[1..]) else [ps[0]] + Without(ps[1..], a)
  }

  lemma {:induction false} WithoutBag(ps: seq<Pool>, a: Addr)
    requires a in Bag(ps)
    ensures Bag(ps) == Bag(Without(ps, a)) + multiset{a}
    decreases |ps|
  {
    BagHas(ps, a);
    assert ps == [ps[0]] + ps[1..];
    BagCons(ps[0], ps[1..]);
    if ps[0].addr != a {
      BagHas(ps[1..], a);
      WithoutBag(ps[1..], a);
      BagCons(ps[0], Without(ps[1..], a));
    }
  }

  lemma WithoutFirst(ps: seq<Pool>, a: Addr)
    requires ps != []
    ensures Without(ps, a) == if ps[0].addr == a then ps[1..] else [ps[0]] + Without(ps[1..], a)
  {
  }

  lemma {:induction false} WithoutSlices(ps: seq<Pool>, x: nat)
    requires x < |ps| && forall k :: 0 <= k < x ==> ps[k].addr != ps[x].addr
    ensures Without(ps, ps[x].addr) == ps[..x] + ps[x + 1..]
    decreases x
  {
    hide Bag, Without;
    WithoutFirst(ps, ps[x].addr);
    if x > 0 {
      WithoutSlices(ps[1..], x - 1);
      assert ps[..x] == [ps[0]] + ps[1..][..x - 1];
      assert ps[1..][x..] == ps[x + 1..];
    }
  }

  /** Disabling a peer and enabling it again restores the address set, with the pool at the end. */
  lemma DisableEnableRestores(ps: seq<Pool>, p: Pool)
    requires p.addr in Bag(ps)
    ensures Bag(Without(ps, p.addr) + [p]) == Bag(ps)
    ensures DistinctAddrs(ps) ==> p.addr !in Bag(Without(ps, p.addr))
  {
    WithoutBag(ps, p.addr);
    BagCons(p, Without(ps, p.addr));
    DistinctIffBag(ps);
  }

  function AddrSet(ps: seq<Pool>): set<Addr> {
    set k | 0 <= k < |ps| :: ps[k].addr
  }

  lemma AddrSetIsBag(ps: seq<Pool>)
    ensures forall a :: a in AddrSet(ps) <==> a in Bag(ps)
  {
    forall a ensures a in AddrSet(ps) <==> a in Bag(ps) {
      BagHas(ps, a);
    }
  }

  /** Later pools win, as repeated map assignment does. */
  function Recorded(m: map<Addr, Pool>, ps: seq<Pool>): (r: map<Addr, Pool>)
    ensures r.Keys == m.Keys + AddrSet(ps)
    ensures (forall a :: a in m ==> m[a].addr == a) ==> forall a :: a in r ==> r[a].addr == a
  {
    if ps == [] then m
    else
      var last, rest := ps[|ps| - 1], ps[..|ps| - 1];
      assert AddrSet(ps) == AddrSet(rest) + {last.addr} by {
        assert ps == rest + [last];
      }
      Recorded(m, rest)[last.addr := last]
  }

  /** A call by a user of the cluster. */
  datatype Op =
    | Insert(p: Pool)
    | Remove(p: Pool)
    | Disable(p: Pool)
    | Enable(p: Pool)
    | Reset(ps: seq<Pool>, disableInserted: bool)
    | Terminate

  /** A call that keeps addresses apart whatever is there: no Disable, and only lists without repeats. */
  predicate Tidy(op: Op) {
    match op
    case Disable(_) => false
    case Reset(ps, disableInserted) => DistinctAddrs(ps) && !disableInserted
    case _ => true
  }

  class Cluster {
    var peers: seq<Pool>
    var disabled: map<Addr, Pool>
    var terminated: bool

    constructor ()
      ensures Valid() && peers == [] && disabled == map[] && !terminated
    {
      peers, disabled, terminated := [], map[], false;
    }

    /** Every disabled pool is filed under its own address; the code never breaks this. */
    ghost predicate Filed()
      reads this
    {
      forall a :: a in disabled ==> disabled[a].addr == a
    }

    /** The documented uniqueness: one pool per address, and none both a peer and disabled. */
    ghost predicate Valid()
      reads this
    {
      && Filed()
      && DistinctAddrs(peers)
      && (forall a :: a in disabled ==> a !in Bag(peers))
    }

    method IndexPeer(p: Pool) returns (x: int)
      ensures x == -1 <==> p.addr !in Bag(peers)
      ensures x != -1 ==> 0 <= x < |peers| && peers[x].addr == p.addr
      ensures x != -1 ==> forall k :: 0 <= k < x ==> peers[k].addr != p.addr
    {
      BagHas(peers, p.addr);
      for i := 0 to |peers|
        invariant forall k :: 0 <= k < i ==> peers[k].addr != p.addr
      {
        if CmpRemoteAddr(peers[i], p) == 0 {
          return i;
        }
      }
      x := -1;
    }

    method InsertPeer(p: Pool) returns (inserted: bool)
      modifies this`peers
      ensures inserted == (p.addr !in Bag(old(peers)))
      ensures peers == if inserted then old(peers) + [p] else old(peers)
    {
      var x := IndexPeer(p);
      if x != -1 {
        return false;
      }
      peers := peers + [p];
      inserted := true;
    }

    method RemovePeer(p: Pool) returns (removed: bool)
      modifies this`peers
      ensures removed == (p.addr in Bag(old(peers)))
      ensures peers == Without(old(peers), p.addr)
    {
      var x := IndexPeer(p);
      if x == -1 {
        return false;
      }
      WithoutSlices(peers, x);
      peers := peers[..x] + peers[x + 1..];
      removed := true;
    }

    method Insert(p: Pool) returns (inserted: bool)
      modifies this`peers
      ensures inserted == (!terminated && p.addr !in disabled && p.addr !in Bag(old(peers)))
      ensures peers == if inserted then old(peers) + [p] else old(peers)
      ensures old(Valid()) ==> Valid()
    {
      if terminated || p.addr in disabled {
        return false;
      }
      inserted := InsertPeer(p);
      if inserted {
        KeepsDistinct(old(peers), p);
      }
    }

    method Remove(p: Pool) returns (removed: bool)
      modifies this`peers, this`disabled
      ensures removed == (!terminated && (p.addr in old(disabled) || p.addr in Bag(old(peers))))
      ensures disabled == if terminated then old(disabled) else old(disabled) - {p.addr}
      ensures peers == if terminated || p.addr in old(disabled) then old(peers) else Without(old(peers), p.addr)
      ensures old(Valid()) ==> Valid()
    {
      if terminated {
        return false;
      }
      if p.addr in disabled {
        disabled := disabled - {p.addr};
        return true;
      }
      removed := RemovePeer(p);
      WithoutKeeps(old(peers), p.addr);
    }

    method Disable(p: Pool) returns (ok: bool)
      modifies this`peers, this`disabled
      ensures ok == (!terminated && p.addr in Bag(old(peers)))
      ensures peers == if ok then Without(old(peers), p.addr) else old(peers)
      ensures disabled == if ok then old(disabled)[p.addr := p] else old(disabled)
      ensures old(Valid()) ==> Valid()
    {
      if terminated {
        return false;
      }
      ok := RemovePeer(p);
      if ok {
        disabled := disabled[p.addr := p];
        WithoutKeeps(old(peers), p.addr);
      }
    }

    /** Enabling inserts the pool given by the caller, not the one that was disabled. */
    method Enable(p: Pool) returns (ok: bool)
      modifies this`peers, this`disabled
      ensures disabled == if terminated then old(disabled) else old(disabled) - {p.addr}
      ensures ok == (!terminated && p.addr in old(disabled) && p.addr !in Bag(old(peers)))
      ensures peers == if ok then old(peers) + [p] else old(peers)
      ensures old(Valid()) ==> Valid() && ok == (!terminated && p.addr in old(disabled))
    {
      if terminated || p.addr !in disabled {
        return false;
      }
      disabled := disabled - {p.addr};
      ok := InsertPeer(p);
      if ok {
        KeepsDistinct(old(peers), p);
      }
    }

    /** Shutdown and Close: the pools to stop are the peers; disabled pools are left alone. */
    method Terminate() returns (toStop: seq<Pool>)
      modifies this`peers, this`terminated
      ensures terminated && peers == [] && toStop == old(peers)
      ensures old(Valid()) ==> Valid()
    {
      terminated := true;
      toStop := peers;
      peers := [];
      AddrSetIsBag([]);
    }

    /** The peers followed by the disabled pools in some order. */
    method Current() returns (current: seq<Pool>)
      requires Filed()
      ensures forall a :: Bag(current)[a] == Bag(peers)[a] + (if a in disabled then 1 else 0)
      ensures peers <= current
    {
      current := peers;
      var rest := disabled.Keys;
      while rest != {}
        invariant rest <= disabled.Keys
        invariant peers <= current
        invariant forall a :: Bag(current)[a] == Bag(peers)[a] + (if a in disabled.Keys - rest then 1 else 0)
        decreases rest
      {
        var a :| a in rest;
        BagCons(disabled[a], current);
        current := current + [disabled[a]];
        rest := rest - {a};
      }
    }

    /**
     Makes the peer list equal to the given one. A valid cluster stays valid exactly when no disabled
     address is named and, unless insertion is deferred, no new address repeats below a retained one.
     `current` is the list merged with, peers first; `untouched` is the part of it that stays.
     */
    method Reset(ps: seq<Pool>, disableInserted: bool)
      returns (inserted: seq<Pool>, removed: seq<Pool>, ignored: seq<Pool>,
               ghost current: seq<Pool>, ghost untouched: seq<Pool>)
      requires Filed()
      modifies this`peers, this`disabled
      ensures Filed()
      ensures terminated ==> inserted == removed == ignored == [] && peers == old(peers) && disabled == old(disabled)
      ensures !terminated ==>
        forall a :: Bag(current)[a] == Bag(old(peers))[a] + (if a in old(disabled) then 1 else 0)
      ensures !terminated ==> IsReset(current, ps, inserted + untouched, untouched, inserted, removed, ignored)
      ensures !terminated ==> peers == if disableInserted then untouched else inserted + untouched
      ensures !terminated ==>
        disabled == Recorded(old(disabled) - AddrSet(removed), if disableInserted then inserted else [])
      ensures !terminated && old(Valid()) ==>
        (Valid() <==> (forall a :: a in Bag(ps) ==> a !in old(disabled)) &&
                      (disableInserted || !exists a :: Repeats(ps, current, a)))
    {
      hide IsReset, Repeats;
      if terminated {
        return [], [], [], [], [];
      }
      var merged := Current();
      var result, kept;
      result, kept, inserted, removed, ignored := ResetPeers(merged, ps);
      current, untouched := merged, kept;
      assert result == inserted + kept by { ResultSplits(merged, ps, result, kept, inserted, removed, ignored); }
      if Valid() {
        ResetValid(peers, disabled, current, ps, untouched, inserted, removed, ignored, disableInserted);
      }
      DeleteDisabled(removed);
      if disableInserted {
        DisableAll(inserted);
        peers := kept;
      } else {
        peers := result;
      }
    }

    method DeleteDisabled(removed: seq<Pool>)
      modifies this`disabled
      ensures disabled == old(disabled) - AddrSet(removed)
    {
      for i := 0 to |removed|
        invariant disabled == old(disabled) - AddrSet(removed[..i])
      {
        assert removed[..i + 1] == removed[..i] + [removed[i]];
        assert AddrSet(removed[..i + 1]) == AddrSet(removed[..i]) + {removed[i].addr};
        disabled := disabled - {removed[i].addr};
      }
      assert removed[..|removed|] == removed;
    }

    method DisableAll(inserted: seq<Pool>)
      modifies this`disabled
      ensures disabled == Recorded(old(disabled), inserted)
    {
      for i := 0 to |inserted|
        invariant disabled == Recorded(old(disabled), inserted[..i])
      {
        assert inserted[..i + 1][..i] == inserted[..i];
        disabled := disabled[inserted[i].addr := inserted[i]];
      }
      assert inserted[..|inserted|] == inserted;
    }

    /** Any one call. A terminated cluster, which has no peers, stays as it is. */
    method Apply(op: Op)
      requires Filed()
      modifies this
      ensures Filed()
      ensures old(terminated && peers == []) ==> terminated && peers == [] && disabled == old(disabled)
      ensures old(Valid()) && !op.Reset? ==> Valid()
      ensures old(Valid()) && Tidy(op) && old(disabled) == map[] ==> Valid() && disabled == map[]
    {
      hide IsReset, Repeats, DistinctAddrs, Bag, Recorded, AddrSet;
      match op
      case Insert(p) => var _ := Insert(p);
      case Remove(p) => var _ := Remove(p);
      case Disable(p) => var _ := Disable(p);
      case Enable(p) => var _ := Enable(p);
      case Reset(ps, disableInserted) =>
        var _, removed, _, current, _ := Reset(ps, disableInserted);
        NoRepeats(ps, current);
        NothingRecorded(old(disabled), removed);
      case Terminate => var _ := Terminate();
    }

    /**
     Any sequence of calls. After a Terminate nothing changes any more; addresses stay apart without a
     reset, and also with resets to lists without repeats as long as nobody disables pools.
     */
    method Run(ops: seq<Op>)
      requires Filed()
      modifies this
      ensures Filed()
      ensures old(terminated && peers == []) ==> terminated && peers == [] && disabled == old(disabled)
      ensures old(Valid()) && (forall op :: op in ops ==> !op.Reset?) ==> Valid()
      ensures old(Valid()) && old(disabled) == map[] && (forall op :: op in ops ==> Tidy(op)) ==> Valid()
    {
      for i := 0 to |ops|
        invariant Filed()
        invariant old(terminated && peers == []) ==> terminated && peers == [] && disabled == old(disabled)
        invariant old(Valid()) && (forall op :: op in ops ==> !op.Reset?) ==> Valid()
        invariant old(Valid()) && old(disabled) == map[] && (forall op :: op in ops ==> Tidy(op)) ==>
            Valid() && disabled == map[]
      {
        Apply(ops[i]);
      }
    }

    /** Disabling a pool and enabling it again: one of two callers, with nothing in between. */
    method DisableThenEnable(p: Pool)
      requires Valid() && !terminated && p.addr in Bag(peers)
      modifies this
      ensures Valid() && Bag(peers) == Bag(old(peers)) && disabled == old(disabled)
    {
      DisableEnableRestores(peers, p);
      var disabled := Disable(p);
      var enabled := Enable(p);
      assert disabled && enabled;
    }
  }

  lemma NothingRecorded(disabled: map<Addr, Pool>, removed: seq<Pool>)
    ensures Recorded(disabled - AddrSet(removed), []) == disabled - AddrSet(removed)
    ensures disabled == map[] ==> disabled - AddrSet(removed) == map[]
  {
  }

  lemma NoRepeats(ps: seq<Pool>, current: seq<Pool>)
    ensures DistinctAddrs(ps) ==> !exists a :: Repeats(ps, current, a)
  {
    DistinctIffBag(ps);
  }

  lemma ResultSplits(dst: seq<Pool>, src: seq<Pool>, result: seq<Pool>, untouched: seq<Pool>,
                     inserted: seq<Pool>, removed: seq<Pool>, ignored: seq<Pool>)
    requires IsReset(dst, src, result, untouched, inserted, removed, ignored)
    ensures result == inserted + untouched
  {
  }

  lemma KeepsDistinct(ps: seq<Pool>, p: Pool)
    requires p.addr !in Bag(ps)
    ensures DistinctAddrs(ps) ==> DistinctAddrs(ps + [p])
    ensures forall a :: a in Bag(ps + [p]) <==> a in Bag(ps) || a == p.addr
  {
    DistinctIffBag(ps);
    DistinctIffBag(ps + [p]);
    BagCons(p, ps);
  }

  lemma WithoutKeeps(ps: seq<Pool>, a: Addr)
    ensures DistinctAddrs(ps) ==> DistinctAddrs(Without(ps, a)) && a !in Bag(Without(ps, a))
    ensures forall b :: b in Bag(Without(ps, a)) ==> b in Bag(ps)
  {
    DistinctIffBag(ps);
    DistinctIffBag(Without(ps, a));
    WithoutCount(ps, a);
    hide Bag, DistinctAddrs, Without;
  }

  lemma WithoutCount(ps: seq<Pool>, a: Addr)
    ensures forall b :: Bag(Without(ps, a))[b] == Bag(ps)[b] - (if b == a && b in Bag(ps) then 1 else 0)
  {
    if a in Bag(ps) {
      WithoutBag(ps, a);
    }
  }

  /** When a reset of a valid cluster leaves it valid, and when not. */
  lemma ResetValid(peers: seq<Pool>, disabled: map<Addr, Pool>, current: seq<Pool>, ps: seq<Pool>,
                   untouched: seq<Pool>, inserted: seq<Pool>, removed: seq<Pool>, ignored: seq<Pool>,
                   disableInserted: bool)
    requires IsReset(current, ps, inserted + untouched, untouched, inserted, removed, ignored)
    requires forall a :: Bag(current)[a] == Bag(peers)[a] + (if a in disabled then 1 else 0)
    requires DistinctAddrs(peers) && forall a :: a in disabled ==> a !in Bag(peers)
    ensures var peers' := if disableInserted then untouched else inserted + untouched;
      var disabled' := Recorded(disabled - AddrSet(removed), if disableInserted then inserted else []);
      (DistinctAddrs(peers') && forall a :: a in disabled' ==> a !in Bag(peers')) <==>
      ((forall a :: a in Bag(ps) ==> a !in disabled) &&
       (disableInserted || !exists a :: Repeats(ps, current, a)))
  {
    hide IsReset, DistinctAddrs, Bag, Repeats;
    ResetMembers(peers, disabled, current, ps, untouched, inserted, removed, ignored);
    BagConcat(inserted, untouched);
    AddrSetIsBag(inserted);
    DistinctIffNoRepeat(current, ps, inserted + untouched, untouched, inserted, removed, ignored);
  }

  /** A reset that names a disabled address makes it a peer while it stays disabled. */
  lemma DisabledBecomesPeer(current: seq<Pool>, untouched: seq<Pool>, inserted: seq<Pool>,
                            removed: seq<Pool>, ignored: seq<Pool>)
    requires IsReset(current, [Pool(1, A)], inserted + untouched, untouched, inserted, removed, ignored)
    requires forall a :: Bag(current)[a] == Bag([])[a] + (if a in map[A := Pool(0, A)] then 1 else 0)
    ensures A in Bag(untouched) && A in Recorded(map[A := Pool(0, A)] - AddrSet(removed), [])
  {
    hide IsReset, Bag;
    var ps, was := [Pool(1, A)], map[A := Pool(0, A)];
    BagHas(ps, A);
    assert ps[0].addr == A;
    BagHas([], A);
    ResetMembers([], was, current, ps, untouched, inserted, removed, ignored);
  }

  /** Where the addresses of the merge come from when the peers and the disabled are distinct. */
  lemma ResetMembers(peers: seq<Pool>, disabled: map<Addr, Pool>, current: seq<Pool>, ps: seq<Pool>,
                     untouched: seq<Pool>, inserted: seq<Pool>, removed: seq<Pool>, ignored: seq<Pool>)
    requires IsReset(current, ps, inserted + untouched, untouched, inserted, removed, ignored)
    requires forall a :: Bag(current)[a] == Bag(peers)[a] + (if a in disabled then 1 else 0)
    requires DistinctAddrs(peers) && forall a :: a in disabled ==> a !in Bag(peers)
    ensures DistinctAddrs(untouched)
    ensures forall a :: a in Bag(untouched) <==> a in Bag(ps) && (a in Bag(peers) || a in disabled)
    ensures forall a :: a in Bag(inserted) <==> a in Bag(ps) && a !in Bag(peers) && a !in disabled
    ensures forall a :: a in AddrSet(removed) <==> (a in Bag(peers) || a in disabled) && a !in Bag(ps)
  {
    hide Bag, RetainedAbove;
    DistinctIffBag(peers);
    DistinctIffBag(untouched);
    BagOfPermutation(untouched + removed, current);
    BagConcat(untouched, removed);
    AddrSetIsBag(removed);
  }
}
