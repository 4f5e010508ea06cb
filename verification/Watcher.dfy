/**
 The watcher over several pools. The program keeps five maps and three running counters; the view below
 keeps one record per watched pool and counts.
 */
module Watcher {
  import opened Counting

  type PoolId = nat

  datatype Config = Config(minAlivePeers: int, strictGraceful: bool)

  /** What is known of one watched pool; `alive` may go below zero after a removal. */
  datatype Peer = Peer(alive: int, broken: bool, uninitialized: bool)

  /** `graceful` counts announced closures, also of pools that are not watched. */
  datatype View = View(peers: map<PoolId, Peer>, graceful: map<PoolId, int>, attached: bool, stopped: bool)

  datatype Event =
    | Init(p: PoolId)
    | Change(p: PoolId, conn: int)
    | Shutdown(p: PoolId)
    | Remove(p: PoolId)
    | Uninitialized(p: PoolId)
    | Initialized(p: PoolId)
    | Stop

  datatype StateChange = StateChange(p: PoolId, alive: int, broken: bool, alivePeers: nat)

  // ---------------------------------------------------------------------------------------------
  // Counting
  // ---------------------------------------------------------------------------------------------

  function AliveSet(ps: map<PoolId, Peer>): set<PoolId> { set p | p in ps && ps[p].alive > 0 }
  function BrokenSet(ps: map<PoolId, Peer>): set<PoolId> { set p | p in ps && ps[p].broken }
  function UninitializedSet(ps: map<PoolId, Peer>): set<PoolId> { set p | p in ps && ps[p].uninitialized }

  function Alive(v: View): nat { |AliveSet(v.peers)| }
  function Broken(v: View): nat { |BrokenSet(v.peers)| }
  function NotReady(v: View): nat { |UninitializedSet(v.peers)| }

  /** Replacing or adding one record changes each count by that record only. */
  lemma CountsAfterUpdate(ps: map<PoolId, Peer>, p: PoolId, q: Peer)
    ensures var was := if p in ps then ps[p] else Peer(0, false, false);
      && |AliveSet(ps[p := q])| == |AliveSet(ps)| + Bit(q.alive > 0) - Bit(was.alive > 0)
      && |BrokenSet(ps[p := q])| == |BrokenSet(ps)| + Bit(q.broken) - Bit(was.broken)
      && |UninitializedSet(ps[p := q])| == |UninitializedSet(ps)| + Bit(q.uninitialized) - Bit(was.uninitialized)
  {
    OneDiffers(AliveSet(ps), AliveSet(ps[p := q]), p);
    OneDiffers(BrokenSet(ps), BrokenSet(ps[p := q]), p);
    OneDiffers(UninitializedSet(ps), UninitializedSet(ps[p := q]), p);
  }

  lemma CountsAfterRemoval(ps: map<PoolId, Peer>, p: PoolId)
    requires p in ps
    ensures |AliveSet(ps - {p})| == |AliveSet(ps)| - Bit(ps[p].alive > 0)
    ensures |BrokenSet(ps - {p})| == |BrokenSet(ps)| - Bit(ps[p].broken)
    ensures |UninitializedSet(ps - {p})| == |UninitializedSet(ps)| - Bit(ps[p].uninitialized)
  {
    OneDiffers(AliveSet(ps), AliveSet(ps - {p}), p);
    OneDiffers(BrokenSet(ps), BrokenSet(ps - {p}), p);
    OneDiffers(UninitializedSet(ps), UninitializedSet(ps - {p}), p);
  }

  // ---------------------------------------------------------------------------------------------
  // The watcher as a function
  // ---------------------------------------------------------------------------------------------

  /** Nothing stands against being attached. */
  predicate MayAttach(c: Config, v: View) {
    Alive(v) >= c.minAlivePeers && !(c.strictGraceful && Broken(v) > 0) && NotReady(v) == 0
  }

  function Graceful(v: View, p: PoolId): int { if p in v.graceful then v.graceful[p] else 0 }

  /** A connection of a watched pool was opened or closed; other differences are ignored. */
  function Changed(v: View, p: PoolId, conn: int): View
    requires p in v.peers
  {
    var q := v.peers[p];
    if conn == 1 then
      v.(peers := v.peers[p := q.(alive := q.alive + 1, broken := false)])
    else if conn == -1 then
      if Graceful(v, p) > 0 then
        v.(peers := v.peers[p := q.(alive := q.alive - 1)], graceful := v.graceful[p := v.graceful[p] - 1])
      else
        v.(peers := v.peers[p := q.(alive := q.alive - 1, broken := true)])
    else v
  }

  /** The flag once a change of pool `p` is tallied: only its first or last connection can move it. */
  predicate Decided(c: Config, v: View, p: PoolId, conn: int)
    requires p in v.peers
  {
    if conn == 1 && v.peers[p].alive == 1 then v.attached || MayAttach(c, v)
    else if conn == -1 && v.peers[p].alive == 0 then
      v.attached && !(c.strictGraceful && v.peers[p].broken) && Alive(v) >= c.minAlivePeers
    else v.attached
  }

  /** Nothing is handled after a stop. */
  function Step(c: Config, v: View, e: Event): View {
    if v.stopped then v else Handle(c, v, e)
  }

  function Handle(c: Config, v: View, e: Event): View {
    match e
    case Init(p) => if p in v.peers then v else v.(peers := v.peers[p := Peer(0, false, false)])
    case Change(p, conn) =>
      if p !in v.peers then v
      else
        var v' := Changed(v, p, conn);
        v'.(attached := Decided(c, v', p, conn))
    case Shutdown(p) => v.(graceful := v.graceful[p := Graceful(v, p) + 1])
    case Remove(p) =>
      if p !in v.peers then v
      else
        var v' := v.(peers := v.peers - {p}, graceful := v.graceful - {p});
        v'.(attached := if v.attached then Alive(v') >= c.minAlivePeers else MayAttach(c, v'))
    case Uninitialized(p) =>
      if p !in v.peers || v.peers[p].uninitialized then v
      else v.(peers := v.peers[p := v.peers[p].(uninitialized := true)], attached := false)
    case Initialized(p) =>
      if p !in v.peers || !v.peers[p].uninitialized then v
      else
        var v' := v.(peers := v.peers[p := v.peers[p].(uninitialized := false)]);
        v'.(attached := v.attached || MayAttach(c, v'))
    case Stop => v.(stopped := true)
  }

  function Start(c: Config): View {
    View(map[], map[], c.minAlivePeers == 0, false)
  }

  function After(c: Config, es: seq<Event>): View {
    if es == [] then Start(c) else Step(c, After(c, es[..|es| - 1]), es[|es| - 1])
  }

  /** The attach (true) and detach (false) callbacks of a step: one exactly when the flag flips. */
  function Callbacks(was: bool, now: bool): seq<bool> {
    if was == now then [] else [now]
  }

  function CallbacksAfter(c: Config, es: seq<Event>): seq<bool> {
    if es == [] then Callbacks(false, Start(c).attached)
    else
      var before := es[..|es| - 1];
      CallbacksAfter(c, before) + Callbacks(After(c, before).attached, After(c, es).attached)
  }

  // ---------------------------------------------------------------------------------------------
  // What holds over every sequence of events
  // ---------------------------------------------------------------------------------------------

  ghost predicate Exact(c: Config, v: View) {
    v.attached <==> Alive(v) >= c.minAlivePeers && NotReady(v) == 0
  }

  /**
   * With graceful closing not required, attached means enough alive peers and none uninitialized after every
   * sequence of events, provided that the number of peers asked for is not negative, and only then.
   */
  lemma AttachedExactly(c: Config)
    requires !c.strictGraceful
    ensures (forall es :: Exact(c, After(c, es))) <==> c.minAlivePeers >= 0
  {
    if c.minAlivePeers >= 0 {
      forall es ensures Exact(c, After(c, es)) {
        RunExactly(c, es);
      }
    } else {
      assert After(c, []) == Start(c) && Alive(Start(c)) == NotReady(Start(c)) == 0;
      assert !Exact(c, After(c, []));
    }
  }

  lemma {:induction false} RunExactly(c: Config, es: seq<Event>)
    requires c.minAlivePeers >= 0 && !c.strictGraceful
    ensures Exact(c, After(c, es))
    decreases |es|
  {
    if es != [] {
      RunExactly(c, es[..|es| - 1]);
      StepExactly(c, After(c, es[..|es| - 1]), es[|es| - 1]);
    }
  }

  lemma StepExactly(c: Config, v: View, e: Event)
    requires !c.strictGraceful
    requires Exact(c, v)
    ensures Exact(c, Step(c, v, e))
  {
    match e
    case Init(p) => CountsAfterUpdate(v.peers, p, Peer(0, false, false));
    case Change(p, conn) =>
      if p in v.peers {
        CountsAfterUpdate(v.peers, p, Changed(v, p, conn).peers[p]);
      }
    case Shutdown(p) =>
    case Remove(p) =>
      if p in v.peers {
        CountsAfterRemoval(v.peers, p);
      }
    case Uninitialized(p) =>
      if p in v.peers {
        CountsAfterUpdate(v.peers, p, v.peers[p].(uninitialized := true));
      }
    case Initialized(p) =>
      if p in v.peers {
        CountsAfterUpdate(v.peers, p, v.peers[p].(uninitialized := false));
      }
    case Stop =>
  }

  predicate Alternates(log: seq<bool>) {
    forall k :: 0 <= k < |log| ==> (log[k] <==> k % 2 == 0)
  }

  /** Attach and detach callbacks strictly alternate, attach first, and the last one tells the flag. */
  lemma {:induction false} CallbacksAlternate(c: Config, es: seq<Event>)
    ensures Alternates(CallbacksAfter(c, es))
    ensures After(c, es).attached <==> |CallbacksAfter(c, es)| % 2 == 1
    decreases |es|
  {
    hide Step;
    if es != [] {
      CallbacksAlternate(c, es[..|es| - 1]);
    }
  }

  /** No uninitialized pool, enough alive peers, and every broken pool still has a live connection. */
  ghost predicate Sound(c: Config, v: View) {
    && NotReady(v) == 0
    && Alive(v) >= c.minAlivePeers
    && forall p :: p in v.peers && v.peers[p].broken ==> v.peers[p].alive > 0
  }

  /** While attached, an unannounced closure arrives for a watched pool that has no live connection. */
  predicate Stray(v: View, e: Event) {
    && v.attached && !v.stopped && e.Change? && e.conn == -1
    && e.p in v.peers && v.peers[e.p].alive <= 0 && Graceful(v, e.p) <= 0
  }

  ghost predicate NoStray(c: Config, es: seq<Event>) {
    forall k :: 0 <= k < |es| ==> !Stray(After(c, es[..k]), es[k])
  }

  /** At every moment of the run the watcher was attached only if things were sound. */
  ghost predicate AlwaysSound(c: Config, es: seq<Event>) {
    forall k :: 0 <= k <= |es| ==> (After(c, es[..k]).attached ==> Sound(c, After(c, es[..k])))
  }

  lemma {:induction false} SoundUnlessStray(c: Config, es: seq<Event>)
    requires c.strictGraceful
    ensures AlwaysSound(c, es) <==> NoStray(c, es)
    decreases |es|
  {
    hide Step, Sound, Stray;
    if es == [] {
      assert es[..0] == [];
      NoneAtStart(c);
    } else {
      var n := |es| - 1;
      SoundUnlessStray(c, es[..n]);
      assert forall k :: 0 <= k <= n ==> es[..n][..k] == es[..k];
      assert forall k :: 0 <= k < n ==> es[..n][k] == es[k];
      assert es[..n + 1] == es;
      if After(c, es[..n]).attached ==> Sound(c, After(c, es[..n])) {
        StrictStep(c, After(c, es[..n]), es[n]);
      }
    }
  }

  lemma NoneAtStart(c: Config)
    ensures Start(c).attached ==> Sound(c, Start(c))
  {
    assert Start(c).peers == map[];
  }

  lemma StrictStep(c: Config, v: View, e: Event)
    requires c.strictGraceful && (v.attached ==> Sound(c, v))
    ensures (Step(c, v, e).attached ==> Sound(c, Step(c, v, e))) <==> !Stray(v, e)
  {
    NoneBroken(Step(c, v, e));
    match e
    case Init(p) => CountsAfterUpdate(v.peers, p, Peer(0, false, false));
    case Change(p, conn) =>
      if p in v.peers {
        CountsAfterUpdate(v.peers, p, Changed(v, p, conn).peers[p]);
      }
    case Shutdown(p) =>
    case Remove(p) =>
      if p in v.peers {
        CountsAfterRemoval(v.peers, p);
      }
    case Uninitialized(p) =>
    case Initialized(p) =>
      if p in v.peers {
        CountsAfterUpdate(v.peers, p, v.peers[p].(uninitialized := false));
      }
    case Stop =>
  }

  lemma NoneBroken(v: View)
    ensures Broken(v) == 0 ==> forall p :: p in v.peers ==> !v.peers[p].broken
  {
    forall p | p in v.peers && v.peers[p].broken ensures Broken(v) > 0 {
      assert p in BrokenSet(v.peers);
    }
  }

  // ---------------------------------------------------------------------------------------------
  // The history of a pool, told from the events alone
  // ---------------------------------------------------------------------------------------------

  function Watched(es: seq<Event>, p: PoolId): bool {
    if es == [] then false
    else
      var e := es[|es| - 1];
      if e == Init(p) then true else if e == Remove(p) then false else Watched(es[..|es| - 1], p)
  }

  /** Openings less closures told of the pool since it was last taken under watch. */
  function Balance(es: seq<Event>, p: PoolId): int {
    if es == [] then 0
    else
      var before, e := es[..|es| - 1], es[|es| - 1];
      if e == Remove(p) then 0
      else if (e == Change(p, 1) || e == Change(p, -1)) && Watched(before, p) then Balance(before, p) + e.conn
      else Balance(before, p)
  }

  /** Announced closures that have not been used up; a removal forgets them. */
  function Announced(es: seq<Event>, p: PoolId): nat {
    if es == [] then 0
    else
      var before, e := es[..|es| - 1], es[|es| - 1];
      var n := Announced(before, p);
      if e == Shutdown(p) then n + 1
      else if e == Remove(p) && Watched(before, p) then 0
      else if e == Change(p, -1) && Watched(before, p) && n > 0 then n - 1
      else n
  }

  /** What the watcher keeps of a pool is its history. */
  lemma {:induction false} HistoryTells(c: Config, es: seq<Event>, p: PoolId)
    ensures After(c, es).stopped <==> Stop in es
    ensures Stop !in es ==>
      && (p in After(c, es).peers <==> Watched(es, p))
      && (Watched(es, p) ==> After(c, es).peers[p].alive == Balance(es, p))
      && (!Watched(es, p) ==> Balance(es, p) == 0)
      && Graceful(After(c, es), p) == Announced(es, p)
    decreases |es|
  {
    hide Step, Graceful;
    if es == [] {
      NoHistory(c, p);
    } else {
      var n := |es| - 1;
      HistoryTells(c, es[..n], p);
      assert es == es[..n] + [es[n]];
      PoolStep(c, After(c, es[..n]), es[n], p);
    }
  }

  lemma NoHistory(c: Config, p: PoolId)
    ensures !Start(c).stopped && p !in Start(c).peers && Graceful(Start(c), p) == 0
  {
  }

  /** What one event does to one pool. */
  lemma PoolStep(c: Config, v: View, e: Event, p: PoolId)
    ensures Step(c, v, e).stopped <==> v.stopped || e == Stop
    ensures !v.stopped ==>
      var v' := Step(c, v, e);
      var closing := e == Change(p, -1) && p in v.peers;
      && (p in v'.peers <==> e == Init(p) || (p in v.peers && e != Remove(p)))
      && (p in v'.peers && p !in v.peers ==> v'.peers[p].alive == 0)
      && (p in v'.peers && p in v.peers ==>
            v'.peers[p].alive - v.peers[p].alive == if e == Change(p, 1) then 1 else if closing then -1 else 0)
      && Graceful(v', p) ==
           (if e == Shutdown(p) then Graceful(v, p) + 1
            else if e == Remove(p) && p in v.peers then 0
            else if closing && Graceful(v, p) > 0 then Graceful(v, p) - 1
            else Graceful(v, p))
  {
  }

  /**
   * While the last callback was an attach, a closure is told that was not announced and that no opening since
   * the pool was taken under watch stands against.
   */
  predicate StrayClosure(c: Config, es: seq<Event>, k: nat) {
    && k < |es| && Stop !in es[..k] && es[k].Change? && es[k].conn == -1
    && Watched(es[..k], es[k].p) && Balance(es[..k], es[k].p) <= 0 && Announced(es[..k], es[k].p) == 0
    && |CallbacksAfter(c, es[..k])| % 2 == 1
  }

  /** With graceful closing required, attached means sound through a run exactly when no closure was stray. */
  lemma StrictAttachedIsSound(c: Config, es: seq<Event>)
    requires c.strictGraceful
    ensures AlwaysSound(c, es) <==> forall k :: 0 <= k < |es| ==> !StrayClosure(c, es, k)
  {
    hide AlwaysSound, Step, Watched, Balance, Announced;
    SoundUnlessStray(c, es);
    forall k | 0 <= k < |es| ensures Stray(After(c, es[..k]), es[k]) <==> StrayClosure(c, es, k) {
      CallbacksAlternate(c, es[..k]);
      HistoryTells(c, es[..k], if es[k].Change? then es[k].p else 0);
    }
  }

  /** Every closure told of a watched pool follows an opening told since the pool was taken under watch. */
  ghost predicate OpenedSinceWatch(es: seq<Event>) {
    forall k :: 0 <= k < |es| && es[k].Change? && es[k].conn == -1 && Watched(es[..k], es[k].p) ==>
      Balance(es[..k], es[k].p) > 0
  }

  lemma OpenedSinceWatchIsSound(c: Config, es: seq<Event>)
    requires c.strictGraceful && OpenedSinceWatch(es)
    ensures AlwaysSound(c, es)
  {
    StrictAttachedIsSound(c, es);
  }

  /** Openings less closures told of the pool since the beginning, watched or not. */
  function Total(es: seq<Event>, p: PoolId): int {
    if es == [] then 0
    else
      var e := es[|es| - 1];
      Total(es[..|es| - 1], p) + if e == Change(p, 1) then 1 else if e == Change(p, -1) then -1 else 0
  }

  /** What the notifications of a pool guarantee: they start after it is watched, and openings come first. */
  ghost predicate Notified(es: seq<Event>) {
    forall k :: 0 <= k < |es| && es[k].Change? ==>
      && Init(es[k].p) in es[..k]
      && (es[k].conn == -1 ==> Total(es[..k], es[k].p) > 0)
  }

  ghost predicate NeverRewatched(es: seq<Event>) {
    forall i, j :: 0 <= i < j < |es| && es[i].Remove? ==> es[j] != Init(es[i].p)
  }

  /** What the notifications guarantee is enough when no removed pool is watched again. */
  lemma NotifiedIsSound(c: Config, es: seq<Event>)
    requires c.strictGraceful && Notified(es) && NeverRewatched(es)
    ensures AlwaysSound(c, es)
  {
    hide AlwaysSound;
    forall k | 0 <= k < |es| && es[k].Change? && es[k].conn == -1 && Watched(es[..k], es[k].p)
      ensures Balance(es[..k], es[k].p) > 0
    {
      PrefixNotified(es, k);
      BalanceIsTotal(es[..k], es[k].p);
    }
    OpenedSinceWatchIsSound(c, es);
  }

  lemma PrefixNotified(es: seq<Event>, k: nat)
    requires k <= |es| && Notified(es) && NeverRewatched(es)
    ensures Notified(es[..k]) && NeverRewatched(es[..k])
  {
    forall i | 0 <= i < k ensures es[..k][..i] == es[..i] && es[..k][i] == es[i] {
    }
  }

  lemma {:induction false} BalanceIsTotal(es: seq<Event>, p: PoolId)
    requires Notified(es) && NeverRewatched(es) && Watched(es, p)
    ensures Balance(es, p) == Total(es, p)
    decreases |es|
  {
    var n := |es| - 1;
    var before := es[..n];
    PrefixNotified(es, n);
    if Watched(before, p) {
      BalanceIsTotal(before, p);
    } else {
      UnwatchedOnce(before, p);
    }
  }

  /** A pool that is not watched was never watched, or was removed. */
  lemma {:induction false} UnwatchedOnce(es: seq<Event>, p: PoolId)
    requires Notified(es) && !Watched(es, p)
    ensures Remove(p) in es || (Init(p) !in es && Total(es, p) == 0 && Balance(es, p) == 0)
    decreases |es|
  {
    if es != [] {
      var n := |es| - 1;
      assert es == es[..n] + [es[n]];
      forall i | 0 <= i < n ensures es[..n][..i] == es[..i] && es[..n][i] == es[i] {
      }
      if es[n] != Remove(p) {
        UnwatchedOnce(es[..n], p);
      }
    }
  }

  /**
   * Watched again after a removal, a pool can lose a connection it opened before: each closure follows its own
   * opening, and the watcher stays attached over a broken pool that has no connection.
   */
  lemma RewatchBreaksSoundness()
    ensures var c, es := Config(0, true), [Init(1), Change(1, 1), Remove(1), Init(1), Change(1, -1)];
      && Notified(es) && StrayClosure(c, es, 4)
      && After(c, es).attached && !Sound(c, After(c, es))
  {
    var c, es := Config(0, true), [Init(1), Change(1, 1), Remove(1), Init(1), Change(1, -1)];
    RewatchNotified(es);
    RewatchHistory(es);
    RewatchRun(c, es);
    CallbacksAlternate(c, es[..4]);
  }

  lemma RewatchNotified(es: seq<Event>)
    requires es == [Init(1), Change(1, 1), Remove(1), Init(1), Change(1, -1)]
    ensures Notified(es)
  {
    var e1, e2, e3, e4 := es[..1], es[..2], es[..3], es[..4];
    assert e1[..0] == [] && e2[..1] == e1 && e3[..2] == e2 && e4[..3] == e3;
    assert Total([], 1) == 0 && Total(e1, 1) == 0;
    assert Total(e2, 1) == 1;
    assert Total(e3, 1) == 1;
    assert Total(e4, 1) == 1;
    assert e1[0] == Init(1) && e4[0] == Init(1);
  }

  lemma RewatchHistory(es: seq<Event>)
    requires es == [Init(1), Change(1, 1), Remove(1), Init(1), Change(1, -1)]
    ensures Stop !in es[..4] && Watched(es[..4], 1) && Balance(es[..4], 1) == 0 && Announced(es[..4], 1) == 0
  {
    var e1, e2, e3, e4 := es[..1], es[..2], es[..3], es[..4];
    assert e1[..0] == [] && e2[..1] == e1 && e3[..2] == e2 && e4[..3] == e3;
    assert Balance(e3, 1) == 0;
    assert Announced([], 1) == 0 && Announced(e1, 1) == 0;
    assert Announced(e2, 1) == 0;
    assert Announced(e3, 1) == 0;
  }

  lemma RewatchRun(c: Config, es: seq<Event>)
    requires c == Config(0, true) && es == [Init(1), Change(1, 1), Remove(1), Init(1), Change(1, -1)]
    ensures After(c, es[..4]) == View(map[1 := Peer(0, false, false)], map[], true, false)
    ensures After(c, es).attached && !Sound(c, After(c, es))
  {
    var e1, e2, e3, e4 := es[..1], es[..2], es[..3], es[..4];
    assert e1[..0] == [] && e2[..1] == e1 && e3[..2] == e2 && e4[..3] == e3 && es[..4] == e4;
    assert After(c, []) == View(map[], map[], true, false);
    assert After(c, e1) == View(map[1 := Peer(0, false, false)], map[], true, false);
    assert After(c, e2) == View(map[1 := Peer(1, false, false)], map[], true, false);
    assert After(c, e3) == View(map[], map[], true, false);
    assert After(c, e4) == View(map[1 := Peer(0, false, false)], map[], true, false);
    assert After(c, es) == Step(c, After(c, e4), Change(1, -1));
    assert After(c, es).peers[1] == Peer(-1, true, false);
  }

  // ---------------------------------------------------------------------------------------------
  // The watcher as a program
  // ---------------------------------------------------------------------------------------------

  /** What a change event reports: the pool as it now is, and how many pools are alive. */
  function Reports(c: Config, v: View, e: Event): seq<StateChange> {
    if !v.stopped && e.Change? && e.p in v.peers then
      var v' := Step(c, v, e);
      [StateChange(e.p, v'.peers[e.p].alive, v'.peers[e.p].broken, Alive(v'))]
    else []
  }

  function ReportsAfter(c: Config, es: seq<Event>): seq<StateChange> {
    if es == [] then []
    else
      var before := es[..|es| - 1];
      ReportsAfter(c, before) + Reports(c, After(c, before), es[|es| - 1])
  }

  /** A missing entry reads as the zero value. */
  function At<V>(m: map<PoolId, V>, p: PoolId, zero: V): V { if p in m then m[p] else zero }

  /** The entries of every watched pool, put together. */
  ghost function PeersOf(ready: map<PoolId, bool>, alive: map<PoolId, int>, broken: map<PoolId, bool>,
                         uninitialized: map<PoolId, bool>): map<PoolId, Peer>
  {
    map p | p in ready :: Peer(At(alive, p, 0), At(broken, p, false), At(uninitialized, p, false))
  }

  /** Only watched pools have entries. */
  ghost predicate Entries(r: map<PoolId, bool>, a: map<PoolId, int>, b: map<PoolId, bool>, u: map<PoolId, bool>) {
    && (forall p :: p in r ==> r[p])
    && a.Keys <= r.Keys && b.Keys <= r.Keys && u.Keys <= r.Keys
  }

  /** How one pool's entry shows. */
  lemma EntryShows(r: map<PoolId, bool>, a: map<PoolId, int>, b: map<PoolId, bool>, u: map<PoolId, bool>, p: PoolId)
    requires Entries(r, a, b, u)
    ensures At(r, p, false) <==> p in r
    ensures At(u, p, false) ==> p in r
    ensures p in PeersOf(r, a, b, u) <==> p in r
    ensures p in r ==> PeersOf(r, a, b, u)[p] == Peer(At(a, p, 0), At(b, p, false), At(u, p, false))
  {
  }

  /** Writing one entry of a watched pool writes that part of its record. */
  lemma PutAlive(r: map<PoolId, bool>, a: map<PoolId, int>, b: map<PoolId, bool>, u: map<PoolId, bool>,
                 p: PoolId, a': int)
    requires Entries(r, a, b, u) && p in r && p in PeersOf(r, a, b, u)
    ensures Entries(r, a[p := a'], b, u)
    ensures PeersOf(r, a[p := a'], b, u) == PeersOf(r, a, b, u)[p := PeersOf(r, a, b, u)[p].(alive := a')]
  {
  }

  lemma PutBroken(r: map<PoolId, bool>, a: map<PoolId, int>, b: map<PoolId, bool>, u: map<PoolId, bool>,
                 p: PoolId, b': bool)
    requires Entries(r, a, b, u) && p in r && p in PeersOf(r, a, b, u)
    ensures Entries(r, a, b[p := b'], u)
    ensures PeersOf(r, a, b[p := b'], u) == PeersOf(r, a, b, u)[p := PeersOf(r, a, b, u)[p].(broken := b')]
  {
  }

  lemma PutUninitialized(r: map<PoolId, bool>, a: map<PoolId, int>, b: map<PoolId, bool>, u: map<PoolId, bool>,
                 p: PoolId, u': bool)
    requires Entries(r, a, b, u) && p in r && p in PeersOf(r, a, b, u)
    ensures Entries(r, a, b, u[p := u'])
    ensures PeersOf(r, a, b, u[p := u']) == PeersOf(r, a, b, u)[p := PeersOf(r, a, b, u)[p].(uninitialized := u')]
  {
  }

  lemma Overwrite(ps: map<PoolId, Peer>, p: PoolId, x: Peer, y: Peer)
    requires p in ps
    ensures ps[p := x][p := y] == ps[p := y] && ps[p := ps[p]] == ps
  {
  }

  lemma NewShows(r: map<PoolId, bool>, a: map<PoolId, int>, b: map<PoolId, bool>, u: map<PoolId, bool>, p: PoolId)
    requires Entries(r, a, b, u) && p !in r
    ensures Entries(r[p := true], a, b, u)
    ensures PeersOf(r[p := true], a, b, u) == PeersOf(r, a, b, u)[p := Peer(0, false, false)]
  {
  }

  lemma DropShows(r: map<PoolId, bool>, a: map<PoolId, int>, b: map<PoolId, bool>, u: map<PoolId, bool>, p: PoolId)
    requires Entries(r, a, b, u)
    ensures Entries(r - {p}, a - {p}, b - {p}, u - {p})
    ensures PeersOf(r - {p}, a - {p}, b - {p}, u - {p}) == PeersOf(r, a, b, u) - {p}
  {
  }

  class MultiWatcher {
    const config: Config
    var ready: map<PoolId, bool>
    var alive: map<PoolId, int>
    var graceful: map<PoolId, int>
    var broken: map<PoolId, bool>
    var uninitialized: map<PoolId, bool>
    var attached: bool
    var stopped: bool
    var peerAlive: int
    var peerBroken: int
    var peerUninitialized: int
    /** Calls made: true for the attach callback, false for the detach one. */
    var calls: seq<bool>
    var reports: seq<StateChange>

    ghost function Abs(): View
      reads this
    {
      View(PeersOf(ready, alive, broken, uninitialized), graceful, attached, stopped)
    }

    /** Only watched pools have entries, and the counters count them. */
    ghost predicate Valid()
      reads this
    {
      && Entries(ready, alive, broken, uninitialized)
      && peerAlive == Alive(Abs()) && peerBroken == Broken(Abs()) && peerUninitialized == NotReady(Abs())
      && (attached ==> peerUninitialized == 0)
    }

    constructor (config: Config)
      ensures Valid() && Abs() == Start(config) && this.config == config
      ensures calls == CallbacksAfter(config, []) && reports == []
    {
      this.config := config;
      ready, alive, graceful, broken, uninitialized := map[], map[], map[], map[], map[];
      attached, stopped := config.minAlivePeers == 0, false;
      peerAlive, peerBroken, peerUninitialized := 0, 0, 0;
      calls, reports := [], [];
      new;
      if attached {
        calls := calls + [true];
      }
    }

    method HandleInit(p: PoolId)
      requires Valid() && !stopped
      modifies this
      ensures Valid() && Abs() == Step(config, old(Abs()), Init(p))
      ensures calls == old(calls) + Callbacks(old(attached), attached) && reports == old(reports)
    {
      hide PeersOf, Entries, AliveSet, BrokenSet, UninitializedSet;
      EntryShows(ready, alive, broken, uninitialized, p);
      CountsAfterUpdate(Abs().peers, p, Peer(0, false, false));
      if !At(ready, p, false) {
        ready := ready[p := true];
        NewShows(old(ready), alive, broken, uninitialized, p);
      }
    }

    method HandleChange(p: PoolId, conn: int)
      requires Valid() && !stopped
      modifies this
      ensures Valid() && Abs() == Step(config, old(Abs()), Change(p, conn))
      ensures calls == old(calls) + Callbacks(old(attached), attached)
      ensures reports == old(reports) + Reports(config, old(Abs()), Change(p, conn))
    {
      hide PeersOf, Entries, AliveSet, BrokenSet, UninitializedSet;
      EntryShows(ready, alive, broken, uninitialized, p);
      if !At(ready, p, false) {
        return;
      }
      var increment, decrement := Tally(p, conn);
      EntryShows(ready, alive, broken, uninitialized, p);
      reports := reports + [StateChange(p, At(alive, p, 0), At(broken, p, false), peerAlive)];
      Decide(p, increment, decrement);
    }

    /** The second half of a change: whether the flag moves. */
    method Decide(p: PoolId, increment: bool, decrement: bool)
      requires Valid() && p in Abs().peers && !(increment && decrement)
      requires increment ==> Abs().peers[p].alive == 1
      requires decrement ==> Abs().peers[p].alive == 0
      modifies `attached, `calls
      ensures Valid() && calls == old(calls) + Callbacks(old(attached), attached)
      ensures attached == Decided(config, old(Abs()), p, if increment then 1 else if decrement then -1 else 0)
    {
      hide PeersOf, Entries, AliveSet, BrokenSet, UninitializedSet;
      EntryShows(ready, alive, broken, uninitialized, p);
      if decrement {
        if !attached {
          return;
        }
        if config.strictGraceful && At(broken, p, false) {
        } else if peerAlive < config.minAlivePeers {
        } else {
          return;
        }
        attached := false;
        calls := calls + [false];
      } else if increment {
        if attached {
          return;
        }
        if peerAlive < config.minAlivePeers {
          return;
        }
        if config.strictGraceful && peerBroken > 0 {
          return;
        }
        if peerUninitialized > 0 {
          return;
        }
        attached := true;
        calls := calls + [true];
      }
    }

    /** The first half of a change: the entries and counters, before any decision. */
    method Tally(p: PoolId, conn: int) returns (increment: bool, decrement: bool)
      requires Valid() && p in ready
      modifies `alive, `broken, `graceful, `peerAlive, `peerBroken
      ensures Valid() && p in Abs().peers && Abs() == Changed(old(Abs()), p, conn)
      ensures increment == (conn == 1 && Abs().peers[p].alive == 1)
      ensures decrement == (conn == -1 && Abs().peers[p].alive == 0)
    {
      hide PeersOf, Entries, AliveSet, BrokenSet, UninitializedSet;
      EntryShows(ready, alive, broken, uninitialized, p);
      increment, decrement := false, false;
      if conn == 1 {
        increment := Opened(p);
      } else if conn == -1 {
        decrement := Closed(p);
      }
    }

    method Opened(p: PoolId) returns (increment: bool)
      requires Valid() && p in ready && p in Abs().peers
      modifies `alive, `broken, `peerAlive, `peerBroken
      ensures Valid() && p in Abs().peers && Abs() == Changed(old(Abs()), p, 1)
      ensures increment == (Abs().peers[p].alive == 1)
    {
      hide PeersOf, Entries, AliveSet, BrokenSet, UninitializedSet;
      ghost var before := Abs().peers;
      increment := CountOpened(p);
      Overwrite(before, p, Abs().peers[p], Abs().peers[p].(broken := false));
      Mend(p);
    }

    method CountOpened(p: PoolId) returns (increment: bool)
      requires Valid() && p in ready && p in Abs().peers
      modifies `alive, `peerAlive
      ensures Valid() && increment == (Abs().peers[p].alive == 1)
      ensures var q := old(Abs().peers[p]);
        Abs() == old(Abs()).(peers := old(Abs().peers)[p := q.(alive := q.alive + 1)])
    {
      hide PeersOf, Entries, AliveSet, BrokenSet, UninitializedSet;
      EntryShows(ready, alive, broken, uninitialized, p);
      ghost var q := Abs().peers[p];
      CountsAfterUpdate(Abs().peers, p, q.(alive := q.alive + 1));
      PutAlive(ready, alive, broken, uninitialized, p, q.alive + 1);
      alive := alive[p := At(alive, p, 0) + 1];
      increment := alive[p] == 1;
      if increment {
        peerAlive := peerAlive + 1;
      }
    }

    method Mend(p: PoolId)
      requires Valid() && p in ready && p in Abs().peers
      modifies `broken, `peerBroken
      ensures Valid()
      ensures Abs() == old(Abs()).(peers := old(Abs().peers)[p := old(Abs().peers[p]).(broken := false)])
    {
      hide PeersOf, Entries, AliveSet, BrokenSet, UninitializedSet;
      EntryShows(ready, alive, broken, uninitialized, p);
      ghost var q := Abs().peers[p];
      CountsAfterUpdate(Abs().peers, p, q.(broken := false));
      Overwrite(Abs().peers, p, q, q);
      if At(broken, p, false) {
        PutBroken(ready, alive, broken, uninitialized, p, false);
        broken := broken[p := false];
        peerBroken := peerBroken - 1;
      }
    }

    /** A closure that was not announced breaks the pool. */
    method Closed(p: PoolId) returns (decrement: bool)
      requires Valid() && p in ready && p in Abs().peers
      modifies `alive, `broken, `graceful, `peerAlive, `peerBroken
      ensures Valid() && p in Abs().peers && Abs() == Changed(old(Abs()), p, -1)
      ensures decrement == (Abs().peers[p].alive == 0)
    {
      hide PeersOf, Entries, AliveSet, BrokenSet, UninitializedSet;
      EntryShows(ready, alive, broken, uninitialized, p);
      ghost var before := Abs().peers;
      decrement := CountClosed(p);
      ghost var now := Changed(old(Abs()), p, -1).peers[p];
      Overwrite(before, p, before[p].(alive := now.alive), now);
      var n := At(graceful, p, 0) - 1;
      if n < 0 {
        MarkBroken(p);
      } else {
        graceful := graceful[p := n];
      }
    }

    method CountClosed(p: PoolId) returns (decrement: bool)
      requires Valid() && p in ready && p in Abs().peers
      modifies `alive, `peerAlive
      ensures Valid() && decrement == (Abs().peers[p].alive == 0)
      ensures var q := old(Abs().peers[p]);
        Abs() == old(Abs()).(peers := old(Abs().peers)[p := q.(alive := q.alive - 1)])
    {
      hide PeersOf, Entries, AliveSet, BrokenSet, UninitializedSet;
      EntryShows(ready, alive, broken, uninitialized, p);
      ghost var q := Abs().peers[p];
      CountsAfterUpdate(Abs().peers, p, q.(alive := q.alive - 1));
      PutAlive(ready, alive, broken, uninitialized, p, q.alive - 1);
      alive := alive[p := At(alive, p, 0) - 1];
      decrement := alive[p] == 0;
      if decrement {
        peerAlive := peerAlive - 1;
      }
    }

    method MarkBroken(p: PoolId)
      requires Valid() && p in ready && p in Abs().peers
      modifies `broken, `peerBroken
      ensures Valid()
      ensures Abs() == old(Abs()).(peers := old(Abs().peers)[p := old(Abs().peers[p]).(broken := true)])
    {
      hide PeersOf, Entries, AliveSet, BrokenSet, UninitializedSet;
      EntryShows(ready, alive, broken, uninitialized, p);
      ghost var q := Abs().peers[p];
      CountsAfterUpdate(Abs().peers, p, q.(broken := true));
      Overwrite(Abs().peers, p, q, q);
      if !At(broken, p, false) {
        PutBroken(ready, alive, broken, uninitialized, p, true);
        broken := broken[p := true];
        peerBroken := peerBroken + 1;
      }
    }

    method HandleShutdown(p: PoolId)
      requires Valid() && !stopped
      modifies this
      ensures Valid() && Abs() == Step(config, old(Abs()), Shutdown(p))
      ensures calls == old(calls) + Callbacks(old(attached), attached) && reports == old(reports)
    {
      graceful := graceful[p := At(graceful, p, 0) + 1];
    }

    method HandleRemove(p: PoolId)
      requires Valid() && !stopped
      modifies this
      ensures Valid() && Abs() == Step(config, old(Abs()), Remove(p))
      ensures calls == old(calls) + Callbacks(old(attached), attached) && reports == old(reports)
    {
      hide PeersOf, Entries, AliveSet, BrokenSet, UninitializedSet;
      EntryShows(ready, alive, broken, uninitialized, p);
      if !At(ready, p, false) {
        return;
      }
      Forget(p);
      if !attached {
        if peerAlive < config.minAlivePeers {
          return;
        }
        if config.strictGraceful && peerBroken > 0 {
          return;
        }
        if peerUninitialized > 0 {
          return;
        }
        attached := true;
        calls := calls + [true];
      } else {
        if peerAlive >= config.minAlivePeers {
          return;
        }
        attached := false;
        calls := calls + [false];
      }
    }

    /** The first half of a removal: the entries and counters, before any decision. */
    method Forget(p: PoolId)
      requires Valid() && p in ready
      modifies `ready, `alive, `broken, `graceful, `uninitialized, `peerAlive, `peerBroken, `peerUninitialized
      ensures Valid()
      ensures Abs() == old(Abs()).(peers := old(Abs().peers) - {p}, graceful := old(graceful) - {p})
    {
      hide PeersOf, Entries, AliveSet, BrokenSet, UninitializedSet;
      EntryShows(ready, alive, broken, uninitialized, p);
      DropShows(ready, alive, broken, uninitialized, p);
      CountsAfterRemoval(Abs().peers, p);
      Uncount(p);
      ready := ready - {p};
      alive := alive - {p};
      graceful := graceful - {p};
      broken := broken - {p};
      uninitialized := uninitialized - {p};
    }

    /** A dropped pool leaves every count it is in. */
    method Uncount(p: PoolId)
      requires Entries(ready, alive, broken, uninitialized) && p in ready
      modifies `peerAlive, `peerBroken, `peerUninitialized
      ensures p in Abs().peers
      ensures peerAlive == old(peerAlive) - Bit(Abs().peers[p].alive > 0)
      ensures peerBroken == old(peerBroken) - Bit(Abs().peers[p].broken)
      ensures peerUninitialized == old(peerUninitialized) - Bit(Abs().peers[p].uninitialized)
    {
      hide PeersOf, Entries;
      EntryShows(ready, alive, broken, uninitialized, p);
      if At(alive, p, 0) > 0 {
        peerAlive := peerAlive - 1;
      }
      if At(broken, p, false) {
        peerBroken := peerBroken - 1;
      }
      if At(uninitialized, p, false) {
        peerUninitialized := peerUninitialized - 1;
      }
    }

    method HandleUninitialized(p: PoolId)
      requires Valid() && !stopped
      modifies this
      ensures Valid() && Abs() == Step(config, old(Abs()), Uninitialized(p))
      ensures calls == old(calls) + Callbacks(old(attached), attached) && reports == old(reports)
    {
      hide PeersOf, Entries, AliveSet, BrokenSet, UninitializedSet;
      EntryShows(ready, alive, broken, uninitialized, p);
      if !At(ready, p, false) || At(uninitialized, p, false) {
        return;
      }
      CountsAfterUpdate(Abs().peers, p, Abs().peers[p].(uninitialized := true));
      uninitialized := uninitialized[p := true];
      peerUninitialized := peerUninitialized + 1;
      PutUninitialized(ready, alive, broken, old(uninitialized), p, uninitialized[p]);
      if attached {
        attached := false;
        calls := calls + [false];
      }
    }

    method HandleInitialized(p: PoolId)
      requires Valid() && !stopped
      modifies this
      ensures Valid() && Abs() == Step(config, old(Abs()), Initialized(p))
      ensures calls == old(calls) + Callbacks(old(attached), attached) && reports == old(reports)
    {
      hide PeersOf, Entries, AliveSet, BrokenSet, UninitializedSet;
      EntryShows(ready, alive, broken, uninitialized, p);
      if !At(uninitialized, p, false) {
        return;
      }
      CountsAfterUpdate(Abs().peers, p, Abs().peers[p].(uninitialized := false));
      uninitialized := uninitialized[p := false];
      peerUninitialized := peerUninitialized - 1;
      PutUninitialized(ready, alive, broken, old(uninitialized), p, uninitialized[p]);
      if peerUninitialized > 0 {
        return;
      }
      if config.strictGraceful && peerBroken > 0 {
        return;
      }
      if peerAlive < config.minAlivePeers {
        return;
      }
      attached := true;
      calls := calls + [true];
    }

    /** Handles one event, as the select of the loop does. */
    method Dispatch(e: Event)
      requires Valid() && !stopped
      modifies this
      ensures Valid() && Abs() == Step(config, old(Abs()), e)
      ensures calls == old(calls) + Callbacks(old(attached), attached)
      ensures reports == old(reports) + Reports(config, old(Abs()), e)
    {
      match e
      case Init(p) => HandleInit(p);
      case Change(p, conn) => HandleChange(p, conn);
      case Shutdown(p) => HandleShutdown(p);
      case Remove(p) => HandleRemove(p);
      case Uninitialized(p) => HandleUninitialized(p);
      case Initialized(p) => HandleInitialized(p);
      case Stop => stopped := true;
    }

    /** The event loop: it handles the events in the order they arrive, up to a stop. */
    method Run(es: seq<Event>)
      requires Valid() && Abs() == Start(config) && calls == CallbacksAfter(config, []) && reports == []
      modifies this
      ensures Valid() && Abs() == After(config, es)
      ensures calls == CallbacksAfter(config, es) && reports == ReportsAfter(config, es)
    {
      hide Step, Reports, PeersOf, AliveSet, BrokenSet, UninitializedSet;
      var i := 0;
      while i < |es| && !stopped
        invariant 0 <= i <= |es|
        invariant Valid() && Abs() == After(config, es[..i])
        invariant calls == CallbacksAfter(config, es[..i]) && reports == ReportsAfter(config, es[..i])
      {
        Dispatch(es[i]);
        assert es[..i + 1][..i] == es[..i];
        i := i + 1;
      }
      StoppedStays(config, es, i);
    }
  }

  lemma NothingAfterStop(c: Config, v: View, e: Event)
    requires v.stopped
    ensures Step(c, v, e) == v && Reports(c, v, e) == []
  {
  }

  /** Events after a stop change nothing. */
  lemma {:induction false} StoppedStays(c: Config, es: seq<Event>, i: nat)
    requires i <= |es| && (After(c, es[..i]).stopped || i == |es|)
    ensures After(c, es) == After(c, es[..i])
    ensures CallbacksAfter(c, es) == CallbacksAfter(c, es[..i])
    ensures ReportsAfter(c, es) == ReportsAfter(c, es[..i])
    decreases |es|
  {
    hide Handle, Reports;
    if i == |es| {
      assert es[..i] == es;
    } else {
      var n := |es| - 1;
      assert es[..n][..i] == es[..i];
      StoppedStays(c, es[..n], i);
      NothingAfterStop(c, After(c, es[..n]), es[n]);
    }
  }
}
