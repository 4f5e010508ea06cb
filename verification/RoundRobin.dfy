/** Choosing the next instance of a shard in turn. */
module RoundRobin {

  import opened Common

  datatype Mode = Master | Replica | Other

  datatype Instance = Instance(id: nat, mode: Mode, offline: bool)

  /** The longest list and the largest cursor a 32-bit counter can be advanced from. */
  const MAX_INT32: int := 0x7fff_ffff

  predicate Online(list: seq<Instance>, i: nat) { i < |list| && !list[i].offline }

  function OnlineSet(list: seq<Instance>): set<nat> {
    set i: nat | 0 <= i < |list| && !list[i].offline
  }

  // ---------------------------------------------------------------------------------------------
  // Whose turn it is
  // ---------------------------------------------------------------------------------------------

  /** The first of the next `k` places after `c`, counted round and round, that is online; else the last. */
  function Search(list: seq<Instance>, c: nat, k: nat): nat
    requires list != []
    decreases k
  {
    if k == 0 then c
    else if Online(list, (c + 1) % |list|) then c + 1
    else Search(list, c + 1, k - 1)
  }

  function Turn(list: seq<Instance>, cur: nat): nat
    requires list != []
  {
    Search(list, cur, |list|) % |list|
  }

  /** The choices of the next `m` calls; each leaves the cursor on its choice. */
  function Turns(list: seq<Instance>, cur: nat, m: nat): (ts: seq<nat>)
    requires list != []
    ensures |ts| == m
  {
    if m == 0 then []
    else
      var before := Turns(list, cur, m - 1);
      before + [Turn(list, if m == 1 then cur else before[m - 2])]
  }

  /** The same choices, counted on without wrapping. */
  function Place(list: seq<Instance>, cur: nat, m: nat): nat
    requires list != []
  {
    if m == 0 then cur else Search(list, Place(list, cur, m - 1), |list|)
  }

  // ---------------------------------------------------------------------------------------------
  // Every online instance has its turn
  // ---------------------------------------------------------------------------------------------

  lemma ModAdds(a: nat, b: nat, m: nat)
    requires m > 0
    ensures (a % m + b) % m == (a + b) % m
  {
    var q, s := a / m, a % m + b;
    var q', r' := s / m, s % m;
    assert a + b == q * m + s;
    assert q * m + q' * m == (q + q') * m;
    DivIsUnique(a + b, m, q + q', r');
  }

  /** Only the place on the ring matters. */
  lemma {:induction false} SearchOnRing(list: seq<Instance>, c: nat, k: nat)
    requires list != []
    ensures Search(list, c % |list|, k) % |list| == Search(list, c, k) % |list|
    decreases k
  {
    var n := |list|;
    ModAdds(c, 1, n);
    if k == 0 {
      ModAdds(c, 0, n);
    } else if !Online(list, (c + 1) % n) {
      SearchOnRing(list, c + 1, k - 1);
      SearchOnRing(list, c % n + 1, k - 1);
    }
  }

  lemma {:induction false} SearchFinds(list: seq<Instance>, c: nat, k: nat, x: nat)
    requires list != [] && c < x <= c + k && Online(list, x % |list|)
    ensures var s := Search(list, c, k);
      && c < s <= x && Online(list, s % |list|)
      && forall y :: c < y < s ==> !Online(list, y % |list|)
    decreases k
  {
    if !Online(list, (c + 1) % |list|) {
      SearchFinds(list, c + 1, k - 1, x);
    }
  }

  lemma {:induction false} TurnsArePlaces(list: seq<Instance>, cur: nat, m: nat, j: nat)
    requires list != [] && j < m
    ensures Turns(list, cur, m)[j] == Place(list, cur, j + 1) % |list|
    decreases m
  {
    if j < m - 1 {
      TurnsArePlaces(list, cur, m - 1, j);
    } else if m > 1 {
      TurnsArePlaces(list, cur, m - 1, m - 2);
      SearchOnRing(list, Place(list, cur, m - 1), |list|);
    }
  }

  /** Within one round of the ring a place stands for one instance. */
  lemma SameRound(c: nat, x: nat, y: nat, n: nat)
    requires n > 0 && c < x <= c + n && c < y <= c + n && x % n == y % n
    ensures x == y
  {
    var q := x / n - y / n;
    assert x == x / n * n + x % n && y == y / n * n + y % n;
    assert q * n == x - y by { assert q * n == x / n * n - y / n * n; }
    if q != 0 {
      FarOff(q, n);
    }
  }

  lemma FarOff(q: int, n: int)
    requires q != 0 && n > 0
    ensures q * n >= n || q * n <= -n
  {
    if q >= 1 {
      assert q * n >= 1 * n;
    } else {
      assert q * n <= -1 * n;
    }
  }

  /** The place of an instance in the round after `c`. */
  lemma PlaceInRound(c: nat, i: nat, n: nat) returns (x: nat)
    requires i < n
    ensures c < x <= c + n && x % n == i
  {
    var q, r := c / n, c % n;
    assert c == q * n + r;
    if i > r {
      x := q * n + i;
      DivIsUnique(x, n, q, i);
    } else {
      x := (q + 1) * n + i;
      assert (q + 1) * n == q * n + n;
      DivIsUnique(x, n, q + 1, i);
    }
  }

  function Seen(list: seq<Instance>, cur: nat, m: nat): set<nat>
    requires list != []
  {
    if m == 0 then {} else Seen(list, cur, m - 1) + {Place(list, cur, m) % |list|}
  }

  /** The turns so far chose exactly the online places passed, and they are not more than a round on. */
  ghost predicate Passed(list: seq<Instance>, cur: nat, m: nat)
    requires list != []
  {
    var n, p, seen := |list|, Place(list, cur, m), Seen(list, cur, m);
    && cur <= p <= cur + n
    && |seen| == m && seen <= OnlineSet(list)
    && (forall y: nat :: cur < y <= cur + n && y % n in seen ==> y <= p)
    && (forall y: nat :: cur < y <= p && Online(list, y % n) ==> y % n in seen)
  }

  lemma {:induction false} EveryTurnPasses(list: seq<Instance>, cur: nat, m: nat)
    requires list != [] && m <= |OnlineSet(list)|
    ensures Passed(list, cur, m)
    ensures m > 0 ==> Place(list, cur, m - 1) < Place(list, cur, m)
  {
    if m > 0 {
      EveryTurnPasses(list, cur, m - 1);
      TurnPasses(list, cur, m);
    }
  }

  lemma TurnPasses(list: seq<Instance>, cur: nat, m: nat)
    requires list != [] && 0 < m <= |OnlineSet(list)| && Passed(list, cur, m - 1)
    ensures Passed(list, cur, m) && Place(list, cur, m - 1) < Place(list, cur, m)
  {
    hide Search, OnlineSet;
    var n, p, seen := |list|, Place(list, cur, m - 1), Seen(list, cur, m - 1);
    var i := Unseen(OnlineSet(list), seen);
    OnlineTells(list);
    var x := PlaceInRound(cur, i, n);
    SearchFinds(list, p, n, x);
    var s := Place(list, cur, m);
    assert s == Search(list, p, n);
    forall y: nat | cur < y <= cur + n && y % n == s % n ensures y == s {
      SameRound(cur, y, s, n);
    }
    assert s % n !in seen;
  }

  lemma OnlineTells(list: seq<Instance>)
    ensures forall i: nat :: i in OnlineSet(list) <==> Online(list, i)
  {
  }

  lemma Unseen(all: set<nat>, seen: set<nat>) returns (i: nat)
    requires |seen| < |all|
    ensures i in all && i !in seen
  {
    assert all <= seen ==> seen == all + (seen - all);
    i :| i in all && i !in seen;
  }

  lemma {:induction false} SeenAreTurns(list: seq<Instance>, cur: nat, m: nat)
    requires list != []
    ensures forall i: nat :: i in Seen(list, cur, m) <==> i in Turns(list, cur, m)
  {
    if m > 0 {
      SeenAreTurns(list, cur, m - 1);
      TurnsArePlaces(list, cur, m, m - 1);
      assert Turns(list, cur, m) == Turns(list, cur, m - 1) + [Place(list, cur, m) % |list|];
    }
  }

  lemma {:induction false} PlacesRise(list: seq<Instance>, cur: nat, j: nat, k: nat)
    requires list != [] && j < k <= |OnlineSet(list)|
    ensures cur <= Place(list, cur, j) < Place(list, cur, k) <= cur + |list|
    decreases k
  {
    EveryTurnPasses(list, cur, k);
    if j < k - 1 {
      PlacesRise(list, cur, j, k - 1);
    } else {
      EveryTurnPasses(list, cur, j);
    }
  }

  /** As many turns as there are online instances choose each of them exactly once, wherever they start. */
  lemma RoundIsFair(list: seq<Instance>, cur: nat)
    requires list != []
    ensures var ts := Turns(list, cur, |OnlineSet(list)|);
      && (forall i: nat :: i in ts <==> Online(list, i))
      && forall j, k :: 0 <= j < k < |ts| ==> ts[j] != ts[k]
  {
    hide Search, OnlineSet, Turns, Seen, Online;
    var m := |OnlineSet(list)|;
    var ts := Turns(list, cur, m);
    EveryTurnPasses(list, cur, m);
    OnlineTells(list);
    SeenAreTurns(list, cur, m);
    var all, seen := OnlineSet(list), Seen(list, cur, m);
    assert all == seen + (all - seen);
    forall j, k | 0 <= j < k < |ts| ensures ts[j] != ts[k] {
      TurnsArePlaces(list, cur, m, j);
      TurnsArePlaces(list, cur, m, k);
      TurnsDiffer(list, cur, j, k);
    }
  }

  lemma TurnsDiffer(list: seq<Instance>, cur: nat, j: nat, k: nat)
    requires list != [] && j < k < |OnlineSet(list)|
    ensures Place(list, cur, j + 1) % |list| != Place(list, cur, k + 1) % |list|
  {
    hide Search, OnlineSet;
    PlacesRise(list, cur, j + 1, k + 1);
    PlacesRise(list, cur, 0, j + 1);
    if Place(list, cur, j + 1) % |list| == Place(list, cur, k + 1) % |list| {
      SameRound(cur, Place(list, cur, j + 1), Place(list, cur, k + 1), |list|);
    }
  }

  // ---------------------------------------------------------------------------------------------
  // The shard as a program
  // ---------------------------------------------------------------------------------------------

  /** A call ends the program, or chooses an instance by its place in the list. */
  datatype Choice = Panics | At(i: nat)

  function OfMode(instances: seq<Instance>, mode: Mode): seq<Instance> {
    if instances == [] then []
    else
      var last := instances[|instances| - 1];
      OfMode(instances[..|instances| - 1], mode) + if last.mode == mode then [last] else []
  }

  /** Exactly the instances of the mode are kept, each as often as it is given, in the order given. */
  lemma {:induction false} OfModeKeeps(instances: seq<Instance>, mode: Mode)
    ensures forall x :: multiset(OfMode(instances, mode))[x] == if x.mode == mode then multiset(instances)[x] else 0
    decreases |instances|
  {
    if instances != [] {
      var n := |instances| - 1;
      OfModeKeeps(instances[..n], mode);
      assert instances == instances[..n] + [instances[n]];
    }
  }

  lemma {:induction false} OfModeInOrder(a: seq<Instance>, b: seq<Instance>, mode: Mode)
    ensures OfMode(a + b, mode) == OfMode(a, mode) + OfMode(b, mode)
    decreases |b|
  {
    if b == [] {
      assert a + b == a;
    } else {
      var n := |b| - 1;
      OfModeInOrder(a, b[..n], mode);
      assert (a + b)[..|a| + n] == a + b[..n] && (a + b)[|a| + n] == b[n];
    }
  }

  /** If a whole round is offline, nothing is online. */
  lemma SomeInRound(list: seq<Instance>, cur: nat, attempts: nat)
    requires list != []
    requires forall y: nat :: cur < y <= cur + attempts ==> !Online(list, y % |list|)
    ensures attempts >= |list| ==> OnlineSet(list) == {}
  {
    if attempts >= |list| && OnlineSet(list) != {} {
      var i :| i in OnlineSet(list);
      var x := PlaceInRound(cur, i, |list|);
      assert Online(list, x % |list|);
    }
  }

  /** After `k` attempts the cursor is `k` places on, none of them online, and the search goes on from there. */
  ghost predicate Searching(list: seq<Instance>, cur: nat, k: nat, c: nat)
    requires list != []
  {
    var n := |list|;
    && c % n == (cur + k) % n
    && (forall y: nat :: cur < y <= cur + k ==> !Online(list, y % n))
    && (k <= n ==> Turn(list, cur) == Search(list, cur + k, n - k) % n)
  }

  lemma StartSearching(list: seq<Instance>, cur: nat)
    requires list != []
    ensures Searching(list, cur, 0, cur)
  {
  }

  /** The next place is the turn if it is online; otherwise the search goes on from it. */
  lemma NextPlace(list: seq<Instance>, cur: nat, k: nat, c: nat)
    requires list != [] && Searching(list, cur, k, c)
    ensures var c' := (c + 1) % |list|;
      if Online(list, c') then k < |list| && Turn(list, cur) == c' && OnlineSet(list) != {}
      else Searching(list, cur, k + 1, c')
  {
    hide OnlineSet;
    OnlineTells(list);
    ModAdds(c, 1, |list|);
    ModAdds(cur + k, 1, |list|);
    ModAdds(c + 1, 0, |list|);
    SomeInRound(list, cur, k);
  }

  lemma NothingFound(list: seq<Instance>, cur: nat, k: nat, c: nat)
    requires list != [] && Searching(list, cur, k, c) && k >= |list|
    ensures OnlineSet(list) == {}
  {
    hide OnlineSet;
    SomeInRound(list, cur, k);
  }

  /** The shared part of both choices, with no other caller in between: advance the cursor and look. */
  method Rotate(list: seq<Instance>, cur: nat) returns (choice: Choice, cur': nat, attempts: nat)
    requires list != [] && |list| <= MAX_INT32 && cur < MAX_INT32
    ensures choice.At? && choice.i < |list| && cur' < |list|
    ensures OnlineSet(list) != {} ==> choice == At(Turn(list, cur)) && cur' == Turn(list, cur) && attempts <= |list|
    ensures OnlineSet(list) != {} ==> Online(list, choice.i)
    ensures OnlineSet(list) == {} ==> attempts == 10 * |list|
  {
    hide OnlineSet, Searching, Turn;
    StartSearching(list, cur);
    cur' := cur;
    attempts := 0;
    while attempts < 10 * |list|
      invariant attempts <= 10 * |list| && cur' < MAX_INT32 && (attempts > 0 ==> cur' < |list|)
      invariant Searching(list, cur, attempts, cur')
    {
      NextPlace(list, cur, attempts, cur');
      attempts := attempts + 1;
      var newVal := cur' + 1;
      var newValMod := newVal % |list|;
      cur' := newVal;
      if newValMod != newVal {
        cur' := newValMod;
      }
      if !list[newValMod].offline {
        return At(newValMod), cur', attempts;
      }
    }
    NothingFound(list, cur, attempts, cur');
    var random: nat :| random < |list|;
    choice := At(random);
  }

  class Shard {
    var masters: seq<Instance>
    var replicas: seq<Instance>
    var curMaster: nat
    var curReplica: nat

    ghost predicate Valid()
      reads this
    {
      |masters| <= MAX_INT32 && |replicas| <= MAX_INT32 && curMaster < MAX_INT32 && curReplica < MAX_INT32
    }

    constructor (masters: seq<Instance>, replicas: seq<Instance>)
      requires |masters| <= MAX_INT32 && |replicas| <= MAX_INT32
      ensures Valid() && this.masters == masters && this.replicas == replicas && curMaster == curReplica == 0
    {
      this.masters, this.replicas, curMaster, curReplica := masters, replicas, 0, 0;
    }

    /** A lone master is taken or nothing is, and the cursor stays; otherwise masters take turns. */
    method NextMaster() returns (choice: Choice, attempts: nat)
      requires Valid()
      modifies `curMaster
      ensures Valid() && attempts <= 10 * |masters|
      ensures choice == Panics <==> |masters| == 0 || (|masters| == 1 && masters[0].offline)
      ensures OnlineSet(masters) != {} ==>
          && choice == At(Turn(masters, old(curMaster))) && Online(masters, choice.i) && attempts <= |masters|
          && (|masters| == 1 || curMaster == choice.i)
      ensures |masters| <= 1 ==> curMaster == old(curMaster)
    {
      OnlineTells(masters);
      if |masters| == 0 {
        return Panics, 0;
      }
      if |masters| == 1 {
        if masters[0].offline {
          return Panics, 0;
        }
        return At(0), 0;
      }
      choice, curMaster, attempts := Rotate(masters, curMaster);
    }

    /** A lone replica that is offline is still taken in the end. */
    method NextReplica() returns (choice: Choice, attempts: nat)
      requires Valid()
      modifies `curReplica
      ensures Valid() && attempts <= 10 * |replicas|
      ensures choice == Panics <==> |replicas| == 0
      ensures OnlineSet(replicas) != {} ==>
          && choice == At(Turn(replicas, old(curReplica))) && Online(replicas, choice.i) && attempts <= |replicas|
          && (|replicas| == 1 || curReplica == choice.i)
    {
      OnlineTells(replicas);
      if |replicas| == 1 && !replicas[0].offline {
        return At(0), 0;
      }
      if |replicas| == 0 {
        return Panics, 0;
      }
      choice, curReplica, attempts := Rotate(replicas, curReplica);
    }

    /** The guard of the cluster: a replica is asked for only if one is online. */
    method OnlineReplica() returns (choice: Choice, ok: bool)
      requires Valid()
      modifies `curReplica
      ensures Valid() && ok == (OnlineSet(replicas) != {})
      ensures ok ==> choice == At(Turn(replicas, old(curReplica))) && Online(replicas, choice.i)
      ensures !ok ==> curReplica == old(curReplica)
    {
      OnlineTells(replicas);
      for i := 0 to |replicas|
        invariant forall k :: 0 <= k < i ==> replicas[k].offline
        invariant curReplica == old(curReplica)
      {
        if replicas[i].offline {
          continue;
        }
        assert i in OnlineSet(replicas);
        var attempts;
        choice, attempts := NextReplica();
        return choice, true;
      }
      assert forall k: nat :: !Online(replicas, k);
      return Panics, false;
    }

    /** Masters and replicas are told apart in the order given; the cursors stay where they are. */
    method SetInstances(instances: seq<Instance>)
      requires Valid() && |instances| <= MAX_INT32
      modifies `masters, `replicas
      ensures Valid() && masters == OfMode(instances, Master) && replicas == OfMode(instances, Replica)
    {
      masters, replicas := [], [];
      for i := 0 to |instances|
        invariant masters == OfMode(instances[..i], Master) && replicas == OfMode(instances[..i], Replica)
        invariant |masters| <= i && |replicas| <= i
      {
        assert instances[..i + 1][..i] == instances[..i];
        match instances[i].mode
        case Master => masters := masters + [instances[i]];
        case Replica => replicas := replicas + [instances[i]];
        case Other =>
      }
      assert instances[..|instances|] == instances;
    }

    /** Calls in a row over an unchanged list of at least two masters take the turns one after the other. */
    method NextMasters(m: nat) returns (chosen: seq<nat>)
      requires Valid() && |masters| >= 2 && OnlineSet(masters) != {}
      modifies `curMaster
      ensures Valid() && chosen == Turns(masters, old(curMaster), m)
    {
      hide Turn, OnlineSet;
      chosen := [];
      for i := 0 to m
        invariant Valid() && chosen == Turns(masters, old(curMaster), i)
        invariant curMaster == if i == 0 then old(curMaster) else chosen[i - 1]
      {
        var choice, attempts := NextMaster();
        chosen := chosen + [choice.i];
      }
    }
  }
}
