/** When the watcher attaches and detaches, told from the events alone. */
module WatcherFlag {
  import opened Watcher

  // ---------------------------------------------------------------------------------------------
  // What the events say of the pools
  // ---------------------------------------------------------------------------------------------

  /** The last connection of the watched pool that was closed was not announced, and none was opened since. */
  function Broke(es: seq<Event>, p: PoolId): bool {
    if es == [] then false
    else
      var before, e := es[..|es| - 1], es[|es| - 1];
      if e == Remove(p) || e == Change(p, 1) then false
      else if e == Change(p, -1) && Watched(before, p) then Announced(before, p) == 0 || Broke(before, p)
      else Broke(before, p)
  }

  /** The watched pool was marked as not initialized, and not as initialized since. */
  function Unready(es: seq<Event>, p: PoolId): bool {
    if es == [] then false
    else
      var before, e := es[..|es| - 1], es[|es| - 1];
      if e == Remove(p) || e == Initialized(p) then false
      else if e == Uninitialized(p) && Watched(before, p) then true
      else Unready(before, p)
  }

  function Mentioned(es: seq<Event>): set<PoolId> {
    set k | 0 <= k < |es| && es[k].Init? :: es[k].p
  }

  function AliveNow(es: seq<Event>): set<PoolId> {
    set p | p in Mentioned(es) && Watched(es, p) && Balance(es, p) > 0
  }

  function BrokenNow(es: seq<Event>): set<PoolId> {
    set p | p in Mentioned(es) && Watched(es, p) && Broke(es, p)
  }

  function UnreadyNow(es: seq<Event>): set<PoolId> {
    set p | p in Mentioned(es) && Watched(es, p) && Unready(es, p)
  }

  /** The marks the watcher keeps of a pool are those of its history. */
  lemma {:induction false} MarksTell(c: Config, es: seq<Event>, p: PoolId)
    requires Stop !in es
    ensures !Watched(es, p) ==> !Broke(es, p) && !Unready(es, p)
    ensures Watched(es, p) ==> p in After(c, es).peers
    ensures Watched(es, p) ==> After(c, es).peers[p].broken == Broke(es, p)
    ensures Watched(es, p) ==> After(c, es).peers[p].uninitialized == Unready(es, p)
    decreases |es|
  {
    hide Step, Balance, Announced, Graceful;
    HistoryTells(c, es, p);
    if es != [] {
      var n := |es| - 1;
      assert es == es[..n] + [es[n]];
      MarksTell(c, es[..n], p);
      HistoryTells(c, es[..n], p);
      if Watched(es, p) {
        MarkStep(c, After(c, es[..n]), es[n], p);
      }
    }
  }

  /** What one event does to the marks of one pool. */
  lemma MarkStep(c: Config, v: View, e: Event, p: PoolId)
    requires !v.stopped && p in Step(c, v, e).peers
    ensures var q := Step(c, v, e).peers[p];
      if p !in v.peers then !q.broken && !q.uninitialized
      else
        && q.uninitialized == (e == Uninitialized(p) || (e != Initialized(p) && v.peers[p].uninitialized))
        && q.broken == if e == Change(p, 1) then false
                       else (e == Change(p, -1) && Graceful(v, p) <= 0) || v.peers[p].broken
  {
  }

  lemma WatchedIsMentioned(es: seq<Event>, p: PoolId)
    requires Watched(es, p)
    ensures p in Mentioned(es)
  {
    var n := |es| - 1;
    if es[n] != Init(p) {
      WatchedIsMentioned(es[..n], p);
      var k :| 0 <= k < n && es[..n][k].Init? && es[..n][k].p == p;
      assert es[k] == es[..n][k];
    }
  }

  /** The three counts of the watcher are those of the pools as the events leave them. */
  lemma CountsTell(c: Config, es: seq<Event>)
    requires Stop !in es
    ensures Alive(After(c, es)) == |AliveNow(es)|
    ensures Broken(After(c, es)) == |BrokenNow(es)|
    ensures NotReady(After(c, es)) == |UnreadyNow(es)|
  {
    hide After, Balance, Broke, Unready, Mentioned, Watched;
    forall p: PoolId
      ensures p in AliveSet(After(c, es).peers) <==> p in AliveNow(es)
      ensures p in BrokenSet(After(c, es).peers) <==> p in BrokenNow(es)
      ensures p in UninitializedSet(After(c, es).peers) <==> p in UnreadyNow(es)
    {
      HistoryTells(c, es, p);
      MarksTell(c, es, p);
      if Watched(es, p) {
        WatchedIsMentioned(es, p);
      }
    }
    assert AliveSet(After(c, es).peers) == AliveNow(es);
    assert BrokenSet(After(c, es).peers) == BrokenNow(es);
    assert UninitializedSet(After(c, es).peers) == UnreadyNow(es);
  }

  // ---------------------------------------------------------------------------------------------
  // When the flag moves
  // ---------------------------------------------------------------------------------------------

  /** Enough pools have a connection, none is uninitialized, and none is broken where that counts. */
  predicate Satisfied(c: Config, es: seq<Event>) {
    |AliveNow(es)| >= c.minAlivePeers && |UnreadyNow(es)| == 0 && (c.strictGraceful ==> |BrokenNow(es)| == 0)
  }

  /** The last event may let the watcher attach. */
  predicate Opens(es: seq<Event>) {
    && es != []
    && var before, e := es[..|es| - 1], es[|es| - 1];
       && !e.Stop? && Watched(before, e.p)
       && match e
          case Change(p, conn) => conn == 1 && Balance(before, p) == 0
          case Initialized(p) => Unready(before, p)
          case Remove(_) => true
          case _ => false
  }

  /** The last event must make the watcher detach. */
  predicate Closes(c: Config, es: seq<Event>) {
    && es != []
    && var before, e := es[..|es| - 1], es[|es| - 1];
       && !e.Stop? && Watched(before, e.p)
       && match e
          case Uninitialized(p) => !Unready(before, p)
          case Change(p, conn) =>
            && conn == -1 && Balance(before, p) == 1
            && (|AliveNow(es)| < c.minAlivePeers || (c.strictGraceful && Broke(es, p)))
          case Remove(_) => |AliveNow(es)| < c.minAlivePeers
          case _ => false
  }

  /**
   A detached watcher attaches at an event exactly when that opens the first connection of a watched pool,
   initializes one or removes one, and everything asked for then holds.
   */
  lemma AttachesWhen(c: Config, es: seq<Event>)
    requires es != [] && Stop !in es && !After(c, es[..|es| - 1]).attached
    ensures After(c, es).attached <==> Opens(es) && Satisfied(c, es)
  {
    hide After, Watched, Balance, Unready, Broke, AliveNow, BrokenNow, UnreadyNow, Step;
    var n := |es| - 1;
    LastStep(c, es);
    FlagStep(c, After(c, es[..n]), es[n]);
  }

  /** An attached one detaches at an event exactly when that takes away what was asked for. */
  lemma DetachesWhen(c: Config, es: seq<Event>)
    requires es != [] && Stop !in es && After(c, es[..|es| - 1]).attached
    ensures !After(c, es).attached <==> Closes(c, es)
  {
    hide After, Watched, Balance, Unready, Broke, AliveNow, BrokenNow, UnreadyNow, Step;
    var n := |es| - 1;
    LastStep(c, es);
    FlagStep(c, After(c, es[..n]), es[n]);
  }

  /** The last step of the watcher, with what the events say of it. */
  lemma LastStep(c: Config, es: seq<Event>)
    requires es != [] && Stop !in es
    ensures var before, e := es[..|es| - 1], es[|es| - 1];
      var v, v' := After(c, before), After(c, es);
      && v' == Step(c, v, e) && !v.stopped && !e.Stop?
      && (e.p in v.peers <==> Watched(before, e.p))
      && (e.p in v.peers ==> v.peers[e.p].alive == Balance(before, e.p))
      && (e.p in v.peers ==> v.peers[e.p].uninitialized == Unready(before, e.p))
      && (e.p in v.peers && !e.Remove? ==> e.p in v'.peers)
      && (e.p in v'.peers ==> v'.peers[e.p].broken == Broke(es, e.p))
      && Alive(v') == |AliveNow(es)| && Broken(v') == |BrokenNow(es)| && NotReady(v') == |UnreadyNow(es)|
  {
    hide Step, Balance, Broke, Unready, Watched, AliveNow, BrokenNow, UnreadyNow;
    var n := |es| - 1;
    assert es == es[..n] + [es[n]];
    HistoryTells(c, es[..n], es[n].p);
    HistoryTells(c, es, es[n].p);
    MarksTell(c, es[..n], es[n].p);
    MarksTell(c, es, es[n].p);
    CountsTell(c, es);
    PoolStep(c, After(c, es[..n]), es[n], es[n].p);
  }

  /** The flag after one event, in terms of what the watcher keeps. */
  lemma FlagStep(c: Config, v: View, e: Event)
    requires !v.stopped && !e.Stop?
    ensures var v' := Step(c, v, e);
      var q := if e.p in v.peers then v.peers[e.p] else Peer(0, false, false);
      && (!v.attached ==>
           (v'.attached <==>
             && e.p in v.peers
             && (e.Remove? || (e == Change(e.p, 1) && q.alive == 0) || (e.Initialized? && q.uninitialized))
             && Alive(v') >= c.minAlivePeers && NotReady(v') == 0 && (c.strictGraceful ==> Broken(v') == 0)))
      && (v.attached ==>
           (!v'.attached <==>
             && e.p in v.peers
             && ((e.Uninitialized? && !q.uninitialized)
                 || (e.Remove? && Alive(v') < c.minAlivePeers)
                 || (e == Change(e.p, -1) && q.alive == 1 &&
                     (Alive(v') < c.minAlivePeers ||
                      (c.strictGraceful && e.p in v'.peers && v'.peers[e.p].broken))))))
  {
  }

  /** What is reported of a change: the connections of the pool, its mark, and how many pools are alive. */
  lemma ReportTells(c: Config, es: seq<Event>)
    requires es != [] && Stop !in es
    ensures var before, e := es[..|es| - 1], es[|es| - 1];
      ReportsAfter(c, es) == ReportsAfter(c, before) +
        if e.Change? && Watched(before, e.p) then [StateChange(e.p, Balance(es, e.p), Broke(es, e.p), |AliveNow(es)|)]
        else []
  {
    hide Step, After, Balance, Broke, Watched, AliveNow, BrokenNow, UnreadyNow;
    LastStep(c, es);
    HistoryTells(c, es, es[|es| - 1].p);
  }
}
