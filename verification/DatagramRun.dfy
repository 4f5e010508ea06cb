/**
 The datagram writer, its senders and its stop as interleaved steps.

 The queue is a bounded channel. A send looks at nothing but the room in the queue, so a packet may be
 queued at any moment, also after the stop and after the writer has gone.
 */
module DatagramRun {

  import opened Common
  import opened Wire
  import opened Datagram

  /** `capacity` is that of the queue, `size` the room of the buffer. */
  datatype Config = Config(capacity: nat, size: nat)

  datatype Pc =
    | Selecting                    // in the select over the queue and the stopper
    | LastLook                     // saw the stopper: takes one more packet if there is one
    | Measuring(x: Item)           // about to read the length of the queue
    | Putting(x: Item, q: nat)     // about to buffer x, with q more to take
    | Receiving(q: nat)            // takes the next of q packets
    | Checking                     // looks at the length again, then flushes or not
    | Done

  /**
   * `queued` is every packet ever queued. `sinceMeasure` counts those queued since the length was last read
   * by Measuring, `late` those queued after the stop, and `seen` is the length the last check saw.
   */
  datatype State = State(
    pc: Pc, exit: bool, stopped: bool, out: seq<Item>, buf: Buf,
    queued: seq<Item>, sinceMeasure: nat, late: nat, seen: nat, last: Option<Item>)

  const Init := State(Selecting, false, false, [], Buf(None, [], []), [], 0, 0, 0, None)

  datatype Event =
    | Send(x: Item)
    | Stop
    | Take
    | SeeStop
    | TakeLast
    | NoneLeft
    | Measure
    | PutOne
    | TakeNext
    | Check

  predicate Enabled(c: Config, s: State, e: Event) {
    match e
    case Send(x) => |s.out| < c.capacity && x.bytes != []
    case Stop => !s.stopped
    case Take => s.pc == Selecting && s.out != []
    case SeeStop => s.pc == Selecting && s.stopped
    case TakeLast => s.pc == LastLook && s.out != []
    case NoneLeft => s.pc == LastLook && s.out == []
    case Measure => s.pc.Measuring?
    case PutOne => s.pc.Putting?
    case TakeNext => s.pc.Receiving? && s.pc.q > 0 && s.out != []
    case Check => s.pc == Checking
  }

  function Next(c: Config, s: State, e: Event): State
    requires Enabled(c, s, e)
  {
    match e
    case Send(x) =>
      s.(out := s.out + [x], queued := s.queued + [x], sinceMeasure := s.sinceMeasure + 1,
         late := if s.stopped then s.late + 1 else s.late)
    case Stop => s.(stopped := true)
    case Take => s.(pc := Measuring(s.out[0]), out := s.out[1..])
    case SeeStop => s.(pc := LastLook, exit := true)
    case TakeLast => s.(pc := Measuring(s.out[0]), out := s.out[1..])
    case NoneLeft => s.(pc := Done, seen := 0)
    case Measure => s.(pc := Putting(s.pc.x, |s.out|), sinceMeasure := 0)
    case PutOne =>
      s.(pc := if s.pc.q == 0 then Checking else Receiving(s.pc.q),
         buf := PutInto(s.buf, s.pc.x, c.size), last := Some(s.pc.x))
    case TakeNext => s.(pc := Putting(s.out[0], s.pc.q - 1), out := s.out[1..])
    case Check =>
      s.(pc := if s.exit then Done else Selecting, seen := |s.out|,
         buf := if |s.out| > 0 then s.buf else Flushed(s.buf))
  }

  // ---------------------------------------------------------------------------------------------
  // The invariant
  // ---------------------------------------------------------------------------------------------

  function InHand(pc: Pc): seq<Item> {
    if pc.Measuring? || pc.Putting? then [pc.x] else []
  }

  /** Every packet queued is sent, buffered, in hand or still in the queue, in that order. */
  ghost predicate Conserved(s: State) {
    && s.queued == TakenBy(s.buf) + InHand(s.pc) + s.out
    && (forall i :: 0 <= i < |s.queued| ==> s.queued[i].bytes != [])
  }

  /** Only the writer takes from the queue, so it holds what is still to be taken and what came since. */
  ghost predicate Lengths(s: State) {
    && (s.pc.Putting? ==> |s.out| == s.pc.q + s.sinceMeasure)
    && (s.pc.Receiving? ==> s.pc.q > 0 && |s.out| == s.pc.q + s.sinceMeasure)
    && (s.pc == Checking ==> |s.out| == s.sinceMeasure)
  }

  ghost predicate Stopping(s: State) {
    && (s.exit ==> s.stopped)
    && (s.pc == Selecting ==> !s.exit)
    && (s.pc == LastLook || s.pc == Done ==> s.exit)
    && (s.exit && (s.pc.Putting? || s.pc.Receiving? || s.pc == Checking) ==> s.sinceMeasure <= s.late)
    && (s.pc == Done ==> s.seen <= |s.out| <= s.late)
  }

  /** The last packet put is in the buffer exactly when it fits. */
  ghost predicate LastFits(c: Config, s: State) {
    s.last.Some? && |s.last.value.bytes| <= c.size
  }

  ghost predicate Buffered(c: Config, s: State) {
    && GoodBuf(s.buf, c.size)
    && (s.pc == Checking || s.pc.Receiving? ==> (s.buf.unsent != [] <==> LastFits(c, s)))
    && (s.pc == Selecting || s.pc == LastLook ==> (s.buf.unsent != [] ==> s.out != []))
    && (s.pc == Done ==> (s.buf.unsent != [] <==> s.seen > 0 && LastFits(c, s)))
  }

  ghost predicate Inv(c: Config, s: State) {
    Conserved(s) && Lengths(s) && Stopping(s) && Buffered(c, s)
  }

  lemma InitInv(c: Config)
    ensures Inv(c, Init)
  {
  }

  lemma StepKeeps(c: Config, s: State, e: Event)
    requires Inv(c, s) && Enabled(c, s, e)
    ensures Inv(c, Next(c, s, e))
  {
    hide GoodBuf, TakenBy, PutInto, Flushed;
    StepConserves(c, s, e);
    FlushKeeps(s.buf, c.size);
    if e.PutOne? {
      HandHasBytes(s);
      PutKeeps(s.buf, s.pc.x, c.size);
    }
  }

  lemma HandHasBytes(s: State)
    requires Conserved(s) && s.pc.Putting?
    ensures s.pc.x.bytes != []
  {
    assert s.queued[|TakenBy(s.buf)|] == s.pc.x;
  }

  lemma StepConserves(c: Config, s: State, e: Event)
    requires Conserved(s) && GoodBuf(s.buf, c.size) && Enabled(c, s, e)
    ensures Conserved(Next(c, s, e))
  {
    hide GoodBuf, TakenBy, PutInto, Flushed;
    match e
    case PutOne =>
      HandHasBytes(s);
      PutKeeps(s.buf, s.pc.x, c.size);
    case Check => FlushKeeps(s.buf, c.size);
    case _ =>
  }

  // ---------------------------------------------------------------------------------------------
  // Runs
  // ---------------------------------------------------------------------------------------------

  ghost predicate Behaviour(c: Config, ss: seq<State>, es: seq<Event>) {
    && |ss| == |es| + 1 && ss[0] == Init
    && forall i :: 0 <= i < |es| ==> (Enabled(c, ss[i], es[i]) && ss[i + 1] == Next(c, ss[i], es[i]))
  }

  lemma {:induction false} RunInv(c: Config, ss: seq<State>, es: seq<Event>, i: nat)
    requires Behaviour(c, ss, es) && i < |ss|
    ensures Inv(c, ss[i])
    decreases i
  {
    hide Inv, Enabled, Next;
    if i == 0 {
      InitInv(c);
    } else {
      RunInv(c, ss, es, i - 1);
      StepKeeps(c, ss[i - 1], es[i - 1]);
    }
  }

  /** At every moment the packets queued are those sent, buffered, in hand and still queued, in that order. */
  lemma NothingVanishes(c: Config, ss: seq<State>, es: seq<Event>, i: nat)
    requires Behaviour(c, ss, es) && i < |ss|
    ensures ss[i].queued == Flatten(ss[i].buf.sent) + ss[i].buf.unsent + InHand(ss[i].pc) + ss[i].out
    ensures forall k :: 0 <= k < |ss[i].buf.sent| ==> OneGroup(ss[i].buf.sent[k], c.size)
  {
    RunInv(c, ss, es, i);
  }

  /**
   * When the writer has gone, its buffer is unsent exactly when the last length check saw a packet and the
   * last packet put was small enough to be buffered. What the check saw, and what is left in the queue, was
   * queued after the stop.
   */
  lemma UnsentExactly(c: Config, ss: seq<State>, es: seq<Event>, i: nat)
    requires Behaviour(c, ss, es) && i < |ss| && ss[i].pc == Done
    ensures ss[i].buf.unsent != [] <==> ss[i].seen > 0 && LastFits(c, ss[i])
    ensures ss[i].seen <= |ss[i].out| <= ss[i].late
    ensures ss[i].queued == Flatten(ss[i].buf.sent) + ss[i].buf.unsent + ss[i].out
  {
    RunInv(c, ss, es, i);
  }

  /** So the promise of the program holds of every run in which nothing is queued after the stop. */
  lemma AllSentUnlessLate(c: Config, ss: seq<State>, es: seq<Event>, i: nat)
    requires Behaviour(c, ss, es) && i < |ss| && ss[i].pc == Done && ss[i].late == 0
    ensures ss[i].buf.unsent == [] && ss[i].out == [] && Flatten(ss[i].buf.sent) == ss[i].queued
  {
    UnsentExactly(c, ss, es, i);
  }

  /** The writer never waits for a packet it has counted. */
  lemma CountedIsThere(c: Config, ss: seq<State>, es: seq<Event>, i: nat)
    requires Behaviour(c, ss, es) && i < |ss| && ss[i].pc.Receiving?
    ensures Enabled(c, ss[i], TakeNext)
  {
    RunInv(c, ss, es, i);
  }

  /** A stop, one packet drained, a late packet queued, and the drained one is never sent. */
  lemma LatePacketLosesBuffer(a: Item, b: Item) returns (ss: seq<State>, es: seq<Event>)
    requires 0 < |a.bytes| <= 1500 && b.bytes != []
    ensures Behaviour(Config(8, 1500), ss, es)
    ensures es == [Event.Send(a), Event.Stop, SeeStop, TakeLast, Measure, PutOne, Event.Send(b), Check]
    ensures var s := ss[8];
      s.pc == Done && s.buf.sent == [] && s.buf.unsent == [a] && s.out == [b]
  {
    hide PutInto, Flushed;
    PutFirst(a, 1500);
    var c := Config(8, 1500);
    es := [Event.Send(a), Event.Stop, SeeStop, TakeLast, Measure, PutOne, Event.Send(b), Check];
    var s1 := Next(c, Init, es[0]);
    var s2 := Next(c, s1, es[1]);
    var s3 := Next(c, s2, es[2]);
    var s4 := Next(c, s3, es[3]);
    var s5 := Next(c, s4, es[4]);
    var s6 := Next(c, s5, es[5]);
    var s7 := Next(c, s6, es[6]);
    var s8 := Next(c, s7, es[7]);
    ss := [Init, s1, s2, s3, s4, s5, s6, s7, s8];
  }

  lemma PutFirst(a: Item, size: nat)
    requires |a.bytes| <= size
    ensures PutInto(Buf(None, [], []), a, size) == Buf(Some(a.addr), [], [a])
  {
    GlueNone();
    assert [] + [a] == [a];
  }

  /** Unless it has gone or waits for a packet or a stop, the writer can take a step. */
  lemma WriterGoesOn(c: Config, ss: seq<State>, es: seq<Event>, i: nat) returns (e: Event)
    requires Behaviour(c, ss, es) && i < |ss| && ss[i].pc != Done
    requires ss[i].pc == Selecting ==> ss[i].out != [] || Event.Stop in es[..i]
    ensures Enabled(c, ss[i], e) && !e.Send? && e != Event.Stop
  {
    RunInv(c, ss, es, i);
    StopTells(c, ss, es, i);
    match ss[i].pc
    case Selecting => e := if ss[i].out != [] then Take else SeeStop;
    case LastLook => e := if ss[i].out != [] then TakeLast else NoneLeft;
    case Measuring(_) => e := Measure;
    case Putting(_, _) => e := PutOne;
    case Receiving(_) => e := TakeNext;
    case Checking => e := Check;
  }

  lemma {:induction false} StopTells(c: Config, ss: seq<State>, es: seq<Event>, i: nat)
    requires Behaviour(c, ss, es) && i < |ss|
    ensures ss[i].stopped <==> Event.Stop in es[..i]
    decreases i
  {
    hide Enabled, Next;
    if i > 0 {
      StopTells(c, ss, es, i - 1);
      StopStep(c, ss[i - 1], es[i - 1]);
      assert es[..i] == es[..i - 1] + [es[i - 1]];
    }
  }

  lemma StopStep(c: Config, s: State, e: Event)
    requires Enabled(c, s, e)
    ensures Next(c, s, e).stopped <==> s.stopped || e == Event.Stop
  {
  }
}
