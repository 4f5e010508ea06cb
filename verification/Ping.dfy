/**
 The ping exchange between two peers that both run the channel code, over a FIFO link each way.

 The timer and the packet reader of a peer take the channel mutex, release it, and only then send, so
 between the two a ping is in the sender's hand. Any send may fail. The time since the last ping is
 taken to be positive when the timer fires again.
 */
module Ping {
  import opened Common
  import opened Counting
  import opened Pending

  /** `waiting` is "lastPing is not zero"; `out` holds the sync numbers of pings on the wire. */
  datatype Peer = Peer(waiting: bool, timerHand: bool, readerHand: Option<U32>, out: seq<U32>)

  datatype World = World(a: Peer, b: Peer)

  datatype Side = A | B

  datatype Event =
    | Timer(s: Side)                // lock section of ping(); while waiting it sends nothing
    | TimerSend(s: Side, ok: bool)  // Notify of a ping request, sync 0
    | Receive(s: Side)              // the reader of `s` handles the oldest ping sent to it
    | AckSend(s: Side, ok: bool)    // Send of the ping ack

  const Idle := Peer(false, false, None, [])
  const Init := World(Idle, Idle)

  function Get(w: World, s: Side): Peer { if s.A? then w.a else w.b }
  function Other(s: Side): Side { if s.A? then B else A }
  function Set(w: World, s: Side, p: Peer): World { if s.A? then w.(a := p) else w.(b := p) }

  predicate Enabled(w: World, e: Event) {
    match e
    case Timer(s) => !Get(w, s).timerHand
    case TimerSend(s, _) => Get(w, s).timerHand
    case Receive(s) => Get(w, Other(s)).out != [] && Get(w, s).readerHand.None?
    case AckSend(s, _) => Get(w, s).readerHand.Some?
  }

  function Next(w: World, e: Event): World
    requires Enabled(w, e)
  {
    match e
    case Timer(s) =>
      var p := Get(w, s);
      if p.waiting then w else Set(w, s, p.(waiting := true, timerHand := true))
    case TimerSend(s, ok) =>
      var p := Get(w, s);
      Set(w, s, p.(timerHand := false, out := if ok then p.out + [0] else p.out))
    case Receive(s) =>
      var q := Get(w, Other(s));
      var w' := Set(w, Other(s), q.(out := q.out[1..]));
      var p := Get(w', s);
      var waitPingAck, sync := p.waiting, q.out[0];
      Set(w', s, p.(waiting := false, readerHand := if !waitPingAck || sync != 0 then Some(sync) else None))
    case AckSend(s, ok) =>
      var p := Get(w, s);
      Set(w, s, p.(readerHand := None, out := if ok then p.out + [p.readerHand.value] else p.out))
  }

  /** Pings of one peer in its hands and on the wire. */
  function Pings(p: Peer): nat {
    Bit(p.timerHand) + Bit(p.readerHand.Some?) + |p.out|
  }

  function InFlight(w: World): nat { Pings(w.a) + Pings(w.b) }

  function Waiters(w: World): nat { Bit(w.a.waiting) + Bit(w.b.waiting) }

  function Lost(e: Event): nat {
    match e
    case TimerSend(_, ok) => Bit(!ok)
    case AckSend(_, ok) => Bit(!ok)
    case _ => 0
  }

  ghost predicate ZeroSync(p: Peer) {
    (forall k :: 0 <= k < |p.out| ==> p.out[k] == 0) && (p.readerHand.Some? ==> p.readerHand.value == 0)
  }

  ghost predicate Inv(w: World) {
    ZeroSync(w.a) && ZeroSync(w.b) && InFlight(w) <= Waiters(w)
  }

  /** One step: pings in flight track the waiting peers, and fall behind only by failed sends. */
  lemma StepConserves(w: World, e: Event)
    requires Inv(w) && Enabled(w, e)
    ensures Inv(Next(w, e))
    ensures Waiters(Next(w, e)) - InFlight(Next(w, e)) == Waiters(w) - InFlight(w) + Lost(e)
  {
    hide ZeroSync;
    SyncStaysZero(w, e);
    if e.Receive? {
      HeardIsZero(Get(w, Other(e.s)));
      ReceiveConserves(w, e.s);
    }
  }

  /** A ping that is heard ends the waiting of the hearer, or bounces. */
  lemma ReceiveConserves(w: World, s: Side)
    requires Enabled(w, Receive(s)) && Get(w, Other(s)).out[0] == 0
    ensures Waiters(Next(w, Receive(s))) - InFlight(Next(w, Receive(s))) == Waiters(w) - InFlight(w)
  {
  }

  lemma HeardIsZero(p: Peer)
    requires ZeroSync(p) && p.out != []
    ensures p.out[0] == 0
  {
  }

  /** A timer that fires while no ping is awaited puts a fresh ping on the wire, and awaits one in return. */
  lemma TimerPings(w: World, s: Side) returns (w1: World, w2: World)
    requires !Get(w, s).timerHand && !Get(w, s).waiting
    ensures Enabled(w, Timer(s)) && w1 == Next(w, Timer(s))
    ensures Enabled(w1, TimerSend(s, true)) && w2 == Next(w1, TimerSend(s, true))
    ensures Get(w2, s).out == Get(w, s).out + [0] && Get(w2, s).waiting && !Get(w2, s).timerHand
    ensures Get(w2, Other(s)) == Get(w, Other(s))
  {
    w1 := Next(w, Timer(s));
    w2 := Next(w1, TimerSend(s, true));
  }

  /** A ping that nobody waits for is answered with its own number; an awaited one ends the exchange. */
  lemma PingAnswered(w: World, s: Side) returns (w1: World)
    requires Enabled(w, Receive(s)) && Get(w, Other(s)).out[0] == 0
    ensures w1 == Next(w, Receive(s)) && Get(w1, Other(s)).out == Get(w, Other(s)).out[1..]
    ensures !Get(w1, s).waiting
    ensures Get(w1, s).readerHand == if Get(w, s).waiting then None else Some(0)
    ensures Get(w1, s).readerHand.Some? ==>
      Enabled(w1, AckSend(s, true)) && Get(Next(w1, AckSend(s, true)), s).out == Get(w, s).out + [0]
  {
    w1 := Next(w, Receive(s));
  }

  /** Acks echo the sync number of the ping, and requests carry zero. */
  lemma SyncStaysZero(w: World, e: Event)
    requires ZeroSync(w.a) && ZeroSync(w.b) && Enabled(w, e)
    ensures ZeroSync(Next(w, e).a) && ZeroSync(Next(w, e).b)
  {
    match e
    case Receive(s) =>
      var out := Get(w, Other(s)).out;
      assert forall k :: 0 <= k < |out[1..]| ==> out[1..][k] == out[k + 1];
    case _ =>
  }

  ghost predicate Run(ws: seq<World>, es: seq<Event>) {
    && |ws| == |es| + 1
    && forall i :: 0 <= i < |es| ==> (Enabled(ws[i], es[i]) && ws[i + 1] == Next(ws[i], es[i]))
  }

  function LostIn(es: seq<Event>): nat {
    if es == [] then 0 else LostIn(es[..|es| - 1]) + Lost(es[|es| - 1])
  }

  /**
   In every run pings in flight plus failed sends equal the number of peers awaiting a ping, so at most
   two pings are ever in flight.
   */
  lemma {:induction false} PingsTrackWaiters(ws: seq<World>, es: seq<Event>, i: nat)
    requires Run(ws, es) && ws[0] == Init && i <= |es|
    ensures Inv(ws[i]) && InFlight(ws[i]) + LostIn(es[..i]) == Waiters(ws[i]) <= 2
    decreases i
  {
    if i > 0 {
      PingsTrackWaiters(ws, es, i - 1);
      StepConserves(ws[i - 1], es[i - 1]);
      assert es[..i][..i - 1] == es[..i - 1];
    } else {
      assert es[..0] == [];
    }
  }

  /** A ping heading to a peer that does not wait will bounce once. */
  function Potential(w: World): nat {
    2 * InFlight(w) + (if w.b.waiting then 0 else Pings(w.a)) + (if w.a.waiting then 0 else Pings(w.b))
  }

  lemma ReceiveLowers(w: World, e: Event)
    requires Inv(w) && Enabled(w, e) && !e.Timer?
    ensures Potential(Next(w, e)) + Bit(e.Receive?) <= Potential(w) <= 4
  {
  }

  function Receives(es: seq<Event>): nat {
    if es == [] then 0 else Receives(es[1..]) + Bit(es[0].Receive?)
  }

  /** From any reachable state, without new timer pings, at most four more pings are ever received. */
  lemma {:induction false} ExchangeDiesOut(ws: seq<World>, es: seq<Event>)
    requires Run(ws, es) && Inv(ws[0])
    requires forall i :: 0 <= i < |es| ==> !es[i].Timer?
    ensures Receives(es) <= Potential(ws[0]) <= 4
    decreases |es|
  {
    if es != [] {
      StepConserves(ws[0], es[0]);
      ReceiveLowers(ws[0], es[0]);
      ExchangeDiesOut(ws[1..], es[1..]);
    }
  }
}
