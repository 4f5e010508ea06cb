/** Glueing queued packets into datagrams, and taking a datagram apart again. */
module Datagram {

  import opened Common
  import opened Wire
  import opened Framing

  /** Addresses are compared by identity, so one peer may have several. */
  type Addr = nat

  datatype Item = Item(bytes: Bytes, addr: Addr)

  datatype Datagram = Datagram(bytes: Bytes, addr: Addr)

  function Glue(items: seq<Item>): Bytes {
    if items == [] then [] else Glue(items[..|items| - 1]) + items[|items| - 1].bytes
  }

  function Flatten(groups: seq<seq<Item>>): seq<Item> {
    if groups == [] then [] else Flatten(groups[..|groups| - 1]) + groups[|groups| - 1]
  }

  lemma GlueOne(items: seq<Item>, x: Item)
    ensures Glue(items + [x]) == Glue(items) + x.bytes
  {
    assert (items + [x])[..|items|] == items;
  }

  lemma FlattenOne(groups: seq<seq<Item>>, g: seq<Item>)
    ensures Flatten(groups + [g]) == Flatten(groups) + g
  {
    assert (groups + [g])[..|groups|] == groups;
  }

  /** A datagram is whole packets of one destination; it is over the size only if it is a single packet. */
  predicate CarriesOne(g: seq<Item>, d: Datagram, size: nat) {
    && g != [] && d.bytes == Glue(g)
    && (forall i :: 0 <= i < |g| ==> g[i].addr == d.addr)
    && (|d.bytes| <= size || |g| == 1)
  }

  predicate Carries(groups: seq<seq<Item>>, sent: seq<Datagram>, size: nat) {
    |groups| == |sent| && forall k :: 0 <= k < |sent| ==> CarriesOne(groups[k], sent[k], size)
  }

  // ---------------------------------------------------------------------------------------------
  // The buffer as a value
  // ---------------------------------------------------------------------------------------------

  /** The packets of each datagram sent, those in the buffer, and the destination the buffer is for. */
  datatype Buf = Buf(addr: Option<Addr>, sent: seq<seq<Item>>, unsent: seq<Item>)

  function Flushed(b: Buf): Buf {
    if b.unsent == [] then b else b.(sent := b.sent + [b.unsent], unsent := [])
  }

  /** What the buffer must be emptied of before a packet is written into it. */
  function Cleared(b: Buf, x: Item, size: nat): Buf {
    if b.addr != Some(x.addr) then Flushed(b).(addr := Some(x.addr))
    else if size - |Glue(b.unsent)| < |x.bytes| then Flushed(b)
    else b
  }

  function Written(b: Buf, x: Item, size: nat): Buf {
    if |x.bytes| > size - |Glue(b.unsent)| then b.(sent := b.sent + [[x]]) else b.(unsent := b.unsent + [x])
  }

  function PutInto(b: Buf, x: Item, size: nat): Buf { Written(Cleared(b, x, size), x, size) }

  function TakenBy(b: Buf): seq<Item> { Flatten(b.sent) + b.unsent }

  /** A group is whole packets of one destination; it is over the size only if it is a single packet. */
  predicate OneGroup(g: seq<Item>, size: nat) {
    g != [] && (forall i :: 0 <= i < |g| ==> g[i].addr == g[0].addr) && (|Glue(g)| <= size || |g| == 1)
  }

  ghost predicate GoodBuf(b: Buf, size: nat) {
    && (forall k :: 0 <= k < |b.sent| ==> OneGroup(b.sent[k], size))
    && |Glue(b.unsent)| <= size
    && (forall i :: 0 <= i < |b.unsent| ==> b.unsent[i].bytes != [])
    && (b.unsent != [] ==> b.addr.Some? && forall i :: 0 <= i < |b.unsent| ==> b.unsent[i].addr == b.addr.value)
  }

  lemma FlushKeeps(b: Buf, size: nat)
    requires GoodBuf(b, size)
    ensures GoodBuf(Flushed(b), size) && TakenBy(Flushed(b)) == TakenBy(b) && Flushed(b).unsent == []
  {
    hide Glue, Flatten;
    GlueNone();
    FlattenOne(b.sent, b.unsent);
  }

  /** A packet put into the buffer stays there exactly when it fits an empty one; otherwise it has been sent. */
  lemma PutKeeps(b: Buf, x: Item, size: nat)
    requires GoodBuf(b, size) && x.bytes != []
    ensures GoodBuf(PutInto(b, x, size), size) && TakenBy(PutInto(b, x, size)) == TakenBy(b) + [x]
    ensures PutInto(b, x, size).unsent != [] <==> |x.bytes| <= size
  {
    hide Glue, Flatten;
    FlushKeeps(b, size);
    GlueNone();
    var c := Cleared(b, x, size);
    GlueOne(c.unsent, x);
    GlueOne([], x);
    assert [] + [x] == [x];
    FlattenOne(c.sent, [x]);
    GlueNotEmpty(b.unsent);
  }

  /** A packet that goes where the buffer goes and fits behind what is in it shares its datagram. */
  lemma PutShares(b: Buf, x: Item, size: nat)
    requires GoodBuf(b, size)
    ensures b.addr == Some(x.addr) && |Glue(b.unsent)| + |x.bytes| <= size ==>
      PutInto(b, x, size) == Buf(b.addr, b.sent, b.unsent + [x])
  {
  }

  /** Packets put one after the other. */
  function PutAll(b: Buf, xs: seq<Item>, size: nat): Buf {
    if xs == [] then b else PutInto(PutAll(b, xs[..|xs| - 1], size), xs[|xs| - 1], size)
  }

  /** The datagrams a buffer stands for: those sent and the one being filled. */
  function Datagrams(b: Buf): seq<seq<Item>> { b.sent + if b.unsent == [] then [] else [b.unsent] }

  /** The first packet of the second group could not go into the datagram of the first. */
  predicate Apart(g: seq<Item>, h: seq<Item>, size: nat) {
    g != [] && h != [] && (g[0].addr != h[0].addr || |Glue(g)| + |h[0].bytes| > size)
  }

  /** No two datagrams in a row could have been one datagram more full. */
  ghost predicate Tight(b: Buf, size: nat) {
    forall k :: 0 < k < |Datagrams(b)| ==> Apart(Datagrams(b)[k - 1], Datagrams(b)[k], size)
  }

  /** The buffer is for the destination of the last datagram, and that is being filled unless it is oversized. */
  ghost predicate Addressed(b: Buf, size: nat) {
    Datagrams(b) != [] ==>
      var last := Datagrams(b)[|Datagrams(b)| - 1];
      last != [] && b.addr == Some(last[0].addr) && (b.unsent == [] ==> |Glue(last)| > size)
  }

  /** Of packets put without a pause each goes into the datagram before it whenever it can. */
  lemma {:induction false} BurstIsTight(xs: seq<Item>, size: nat)
    requires forall i :: 0 <= i < |xs| ==> xs[i].bytes != []
    ensures var b := PutAll(Buf(None, [], []), xs, size);
      GoodBuf(b, size) && Tight(b, size) && Addressed(b, size) && TakenBy(b) == xs
    decreases |xs|
  {
    hide PutInto, GoodBuf, Tight, Addressed, TakenBy;
    if xs == [] {
      NothingPut(size);
    } else {
      var n := |xs| - 1;
      BurstIsTight(xs[..n], size);
      var b := PutAll(Buf(None, [], []), xs[..n], size);
      PutKeeps(b, xs[n], size);
      PutTight(b, xs[n], size);
      assert xs == xs[..n] + [xs[n]];
    }
  }

  lemma NothingPut(size: nat)
    ensures var b := Buf(None, [], []);
      GoodBuf(b, size) && Tight(b, size) && Addressed(b, size) && TakenBy(b) == []
  {
    GlueNone();
  }

  lemma PutTight(b: Buf, x: Item, size: nat)
    requires GoodBuf(b, size) && Tight(b, size) && Addressed(b, size) && x.bytes != []
    ensures Tight(PutInto(b, x, size), size) && Addressed(PutInto(b, x, size), size)
  {
    hide Glue, PutInto, GoodBuf;
    PutDatagrams(b, x, size);
    GlueOne([], x);
    assert [] + [x] == [x] && Glue([]) + x.bytes == Glue([x]);
    GlueNone();
  }

  /** The packet joins the datagram being filled, or starts the next one. */
  lemma PutDatagrams(b: Buf, x: Item, size: nat)
    requires GoodBuf(b, size) && Addressed(b, size) && x.bytes != []
    ensures var b', n := PutInto(b, x, size), |Datagrams(b)|;
      && b'.addr == Some(x.addr) && (b'.unsent == [] ==> |x.bytes| > size)
      && (if b.unsent != [] && b.addr == Some(x.addr) && |Glue(b.unsent)| + |x.bytes| <= size
          then n > 0 && Datagrams(b') == Datagrams(b)[..n - 1] + [b.unsent + [x]] && b'.unsent != []
          else Datagrams(b') == Datagrams(b) + [[x]])
  {
    hide Glue;
    GlueNone();
    var c := Cleared(b, x, size);
    assert c.unsent == [] ==> c.unsent + [x] == [x];
    assert c.unsent == [] ==> c.sent == Datagrams(b);
  }

  lemma {:induction false} GlueNotEmpty(items: seq<Item>)
    requires forall i :: 0 <= i < |items| ==> items[i].bytes != []
    ensures Glue(items) == [] <==> items == []
  {
  }

  class Writer {
    /** The room of the buffer: about the maximum transmission unit, as the buffers of the pool are rounded up. */
    const size: nat
    var addr: Option<Addr>
    var buffered: Bytes
    var sent: seq<Datagram>
    /** The packets of each datagram sent, and those still in the buffer. */
    ghost var groups: seq<seq<Item>>
    ghost var unsent: seq<Item>

    ghost function Abs(): Buf
      reads this
    {
      Buf(addr, groups, unsent)
    }

    ghost predicate Valid()
      reads this
    {
      Carries(groups, sent, size) && GoodBuf(Abs(), size) && buffered == Glue(unsent)
    }

    /** All packets taken so far, in the order of the queue. */
    ghost function Taken(): seq<Item>
      reads this
    {
      TakenBy(Abs())
    }

    constructor (size: nat)
      ensures Valid() && Taken() == [] && sent == [] && buffered == [] && this.size == size
    {
      this.size, addr, buffered, sent, groups, unsent := size, None, [], [], [], [];
    }

    method Flush()
      requires Valid()
      modifies this
      ensures Valid() && Abs() == Flushed(old(Abs())) && Taken() == old(Taken()) && buffered == []
      ensures sent == old(sent) + if old(buffered) == [] then [] else [Datagram(old(buffered), old(addr.value))]
    {
      hide Glue;
      GlueNotEmpty(unsent);
      GlueNone();
      FlushKeeps(Abs(), size);
      if |buffered| == 0 {
        return;
      }
      sent := sent + [Datagram(buffered, addr.value)];
      groups := groups + [unsent];
      buffered, unsent := [], [];
    }

    function Available(): int
      reads this
    {
      size - |buffered|
    }

    /** What does not fit into the empty buffer is sent directly; what fits is copied into it. */
    method Write(x: Item)
      requires Valid() && x.bytes != [] && addr == Some(x.addr)
      requires Available() >= |x.bytes| || buffered == []
      modifies this
      ensures Valid() && Abs() == Written(old(Abs()), x, size)
    {
      hide Glue;
      GlueOne(unsent, x);
      GlueOne([], x);
      GlueNone();
      if |x.bytes| > Available() {
        assert [] + [x] == [x];
        sent := sent + [Datagram(x.bytes, x.addr)];
        groups := groups + [[x]];
        return;
      }
      buffered := buffered + x.bytes;
      unsent := unsent + [x];
    }

    /** One turn of the inner loop: flush when the destination changes or the packet does not fit. */
    method Put(x: Item)
      requires Valid() && x.bytes != []
      modifies this
      ensures Valid() && Abs() == PutInto(old(Abs()), x, size)
      ensures Taken() == old(Taken()) + [x]
      ensures buffered != [] <==> |x.bytes| <= size
    {
      hide Glue, Carries, TakenBy;
      PutKeeps(Abs(), x, size);
      if addr != Some(x.addr) {
        Flush();
        addr := Some(x.addr);
      } else if Available() < |x.bytes| {
        Flush();
      }
      Write(x);
      GlueNotEmpty(unsent);
    }

    /**
     * The loop over the queue. Packets may be queued at any time, so `queue` is all that will ever be queued,
     * and the length the program sees is any number of what is still to come. It ends when it is stopped, or
     * waits when nothing comes any more. `seen` is the length the last check saw, zero when it looked into an
     * empty queue: a stopped loop leaves the buffer unsent exactly when that is positive and the last packet
     * was buffered.
     */
    method Run(queue: seq<Item>) returns (stopped: bool, seen: nat)
      requires Valid() && Taken() == [] && buffered == []
      requires forall i :: 0 <= i < |queue| ==> queue[i].bytes != []
      modifies this
      ensures Valid() && Taken() <= queue && seen <= |queue| - |Taken()|
      ensures !stopped ==> Taken() == queue && buffered == []
      ensures stopped ==>
        (buffered != [] <==> seen > 0 && Taken() != [] && |Taken()[|Taken()| - 1].bytes| <= size)
    {
      hide Carries, Glue, Flatten, GoodBuf;
      var taken := 0;
      stopped, seen := false, 0;
      while !stopped
        invariant taken <= |queue| && Valid() && Taken() == queue[..taken] && seen <= |queue| - taken
        invariant buffered != [] <==> seen > 0 && taken > 0 && |queue[taken - 1].bytes| <= size
        decreases !stopped, |queue| - taken
      {
        var some := true;
        if * {
          stopped := true;
          some := *;
          some := taken < |queue| && (some || seen > 0);
        } else if taken == |queue| {
          return;
        }
        if !some {
          continue;
        }
        var q: nat :| q <= |queue| - taken - 1;
        ghost var from := taken;
        while true
          invariant from <= taken && taken + q < |queue| && Valid() && Taken() == queue[..taken]
          decreases q
        {
          Put(queue[taken]);
          assert queue[..taken + 1] == queue[..taken] + [queue[taken]];
          taken := taken + 1;
          if q == 0 {
            break;
          }
          q := q - 1;
        }
        seen := *;
        if seen > |queue| - taken {
          seen := |queue| - taken;
        }
        if seen > 0 {
          continue;
        }
        Flush();
      }
    }
  }

  lemma GlueNone()
    ensures Glue([]) == []
  {
  }

  // ---------------------------------------------------------------------------------------------
  // Taking a datagram apart
  // ---------------------------------------------------------------------------------------------

  /** The packets up to the first broken one. */
  function Parse(s: Bytes, limit: nat): seq<Packet>
    decreases |s|
  {
    var r := DecPacket(s, limit);
    if r.Got? && |r.rest| < |s| then [r.value] + Parse(r.rest, limit) else []
  }

  /** The bytes are those of one packet whose header tells its length. */
  predicate Whole(x: Item, limit: nat) {
    var r := DecPacket(x.bytes, limit);
    r.Got? && r.rest == []
  }

  predicate AllWhole(items: seq<Item>, limit: nat) {
    forall i :: 0 <= i < |items| ==> Whole(items[i], limit)
  }

  function PacketsOf(items: seq<Item>, limit: nat): seq<Packet>
    requires AllWhole(items, limit)
  {
    seq(|items|, i requires 0 <= i < |items| && Whole(items[i], limit) => DecPacket(items[i].bytes, limit).value)
  }

  /** What the server queues for a packet is whole when the packet tells its length and keeps to the limit. */
  lemma QueuedIsWhole(p: Packet, addr: Addr, limit: nat)
    requires Complete(p, limit)
    ensures Whole(Item(Marshal(p), addr), limit) && PacketsOf([Item(Marshal(p), addr)], limit) == [p]
  {
    PacketInverse(p, [], limit);
    assert Marshal(p) + [] == Marshal(p);
  }

  /** Glued packets are read back one by one, whatever follows them. */
  lemma {:induction false} ParseInverse(items: seq<Item>, t: Bytes, limit: nat)
    requires AllWhole(items, limit)
    ensures Parse(Glue(items) + t, limit) == PacketsOf(items, limit) + Parse(t, limit)
  {
    hide Marshal, DecPacket;
    if items == [] {
      assert Glue(items) + t == t;
    } else {
      var n := |items| - 1;
      var tail := items[n].bytes + t;
      assert Glue(items) + t == Glue(items[..n]) + tail;
      ParseInverse(items[..n], tail, limit);
      WholeParses(items[n], t, limit);
      assert PacketsOf(items, limit) == PacketsOf(items[..n], limit) + [DecPacket(items[n].bytes, limit).value];
    }
  }

  lemma WholeParses(x: Item, t: Bytes, limit: nat)
    requires Whole(x, limit)
    ensures Parse(x.bytes + t, limit) == [DecPacket(x.bytes, limit).value] + Parse(t, limit)
  {
    hide DecPacket, Marshal;
    var p := DecPacket(x.bytes, limit).value;
    DecPacketConsumes(x.bytes, limit);
    assert Marshal(p) + [] == Marshal(p);
    PacketInverse(p, t, limit);
  }

  /** A broken packet does not undo those before it: they have been read by then. */
  lemma BrokenTailKeepsHead(items: seq<Item>, t: Bytes, limit: nat)
    requires AllWhole(items, limit) && DecPacket(t, limit) == Failed
    ensures Parse(Glue(items) + t, limit) == PacketsOf(items, limit)
  {
    ParseInverse(items, t, limit);
  }

  function ParseSent(sent: seq<Datagram>, limit: nat): seq<Packet> {
    if sent == [] then [] else ParseSent(sent[..|sent| - 1], limit) + Parse(sent[|sent| - 1].bytes, limit)
  }

  /** All that is read from the datagrams sent is a prefix of what was queued, in the order of the queue. */
  lemma ReadersGetPrefix(queue: seq<Item>, groups: seq<seq<Item>>, unsent: seq<Item>, sent: seq<Datagram>,
                         size: nat, limit: nat)
    requires Carries(groups, sent, size) && Flatten(groups) + unsent <= queue && AllWhole(queue, limit)
    ensures ParseSent(sent, limit) <= PacketsOf(queue, limit)
    ensures unsent == [] && Flatten(groups) == queue ==> ParseSent(sent, limit) == PacketsOf(queue, limit)
  {
    hide DecPacket, Glue, Parse;
    var n := |Flatten(groups)|;
    assert Flatten(groups) == queue[..n];
    SentParses(groups, sent, size, limit);
    assert PacketsOf(queue[..n], limit) == PacketsOf(queue, limit)[..n];
  }

  lemma {:induction false} SentParses(groups: seq<seq<Item>>, sent: seq<Datagram>, size: nat, limit: nat)
    requires Carries(groups, sent, size) && AllWhole(Flatten(groups), limit)
    ensures ParseSent(sent, limit) == PacketsOf(Flatten(groups), limit)
    decreases |sent|
  {
    hide DecPacket, Glue, Parse, Whole, AllWhole, PacketsOf;
    if sent != [] {
      var n := |sent| - 1;
      var head, g := Flatten(groups[..n]), groups[n];
      PacketsJoin(head, g, limit);
      SentParses(groups[..n], sent[..n], size, limit);
      assert CarriesOne(g, sent[n], size);
      ParseInverse(g, [], limit);
      NothingToParse([], limit);
      assert Glue(g) + [] == Glue(g);
    } else {
      NoPackets(limit);
    }
  }

  lemma NoPackets(limit: nat)
    ensures AllWhole([], limit) && PacketsOf([], limit) == []
  {
  }

  lemma PacketsJoin(head: seq<Item>, g: seq<Item>, limit: nat)
    requires AllWhole(head + g, limit)
    ensures AllWhole(head, limit) && AllWhole(g, limit)
    ensures PacketsOf(head + g, limit) == PacketsOf(head, limit) + PacketsOf(g, limit)
  {
    hide DecPacket, Whole;
    assert forall i :: 0 <= i < |head| ==> (head + g)[i] == head[i];
    assert forall i :: 0 <= i < |g| ==> (head + g)[|head| + i] == g[i];
  }

  /** A datagram that starts with a broken packet is dropped whole, and no other is. */
  lemma DroppedWholeOnlyIfFirst(items: seq<Item>, t: Bytes, limit: nat)
    requires AllWhole(items, limit) && DecPacket(t, limit) == Failed
    ensures Parse(Glue(items) + t, limit) == [] <==> items == []
  {
    BrokenTailKeepsHead(items, t, limit);
  }

  /** One whole packet with a stray byte behind it: the packet is handled and only the byte is dropped. */
  lemma HeadIsHandled()
    ensures var p := Packet(1, 0, 7, []);
      Parse(Marshal(p) + [255], 0) == [p]
  {
    var p := Packet(1, 0, 7, []);
    PacketInverse(p, [255], 0);
    assert DecPacket([255], 0) == Failed && Parse([255], 0) == [];
  }

  /**
   * The loop over one datagram: packets before a broken one have been handled by then. A stop ends the loop
   * between reading a packet and handling it.
   */
  method ReadDatagram(data: Bytes, limit: U32) returns (handled: seq<Packet>, stopped: bool)
    ensures !stopped ==> handled == Parse(data, limit)
    ensures stopped ==> handled < Parse(data, limit)
  {
    hide DecPacket, Marshal;
    var source := new Source(true, data);
    var s := new StreamReader(source, limit);
    handled, stopped := [], false;
    while |source.buffered| + |source.socket| > 0
      invariant s.Valid() && fresh(s) && fresh(s.buf) && fresh(source)
      invariant handled + Parse(source.Pending(), limit) == Parse(data, limit)
      decreases |source.Pending()|
    {
      ghost var before := source.Pending();
      var pkt, err := s.ReadPacket();
      if err != NoError {
        assert Parse(before, limit) == [];
        return;
      }
      assert Parse(before, limit) == [pkt] + Parse(source.Pending(), limit);
      assert handled + ([pkt] + Parse(source.Pending(), limit)) == (handled + [pkt]) + Parse(source.Pending(), limit);
      if * {
        return handled, true;
      }
      handled := handled + [pkt];
    }
    NothingToParse(source.Pending(), limit);
  }

  lemma NothingToParse(s: Bytes, limit: nat)
    requires s == []
    ensures Parse(s, limit) == []
  {
  }
}
