/** Taking a connection over from a running reader without losing or repeating a byte. */
module Hijack {

  import opened Common
  import opened Wire
  import opened Framing
  import Pending

  /** What became of a packet: it answered a call, was dispatched, or was kept for the new owner. */
  datatype Fate = Response | Dispatched | Kept

  /** A packet, the calls that were pending when it came, and what became of it. */
  datatype Entry = Entry(packet: Packet, pending: set<Pending.Code>, fate: Fate)

  function CodeOf(p: Packet): Pending.Code { Pending.Code(p.msg, p.sync) }

  datatype Exit = HandedOver | Broken

  function Packets(log: seq<Entry>): seq<Packet> {
    seq(|log|, i requires 0 <= i < |log| => log[i].packet)
  }

  /** The packets kept for the new owner, in the order they arrived. */
  function KeptOf(log: seq<Entry>): seq<Packet> {
    if log == [] then []
    else
      var e := log[|log| - 1];
      KeptOf(log[..|log| - 1]) + if e.fate == Kept then [e.packet] else []
  }

  /** What has to become of a packet. */
  function Due(packet: Packet, pending: set<Pending.Code>, hijacked: bool): Fate {
    if CodeOf(packet) in pending then Response else if hijacked then Kept else Dispatched
  }

  /**
   * The reader saw the hijack when the log had `turn` entries. A packet answered a call exactly when its code
   * was pending; of the others those before the turn were dispatched and those after it were kept.
   */
  predicate TurnsAt(log: seq<Entry>, turn: nat) {
    && turn <= |log|
    && forall i :: 0 <= i < |log| ==> log[i].fate == Due(log[i].packet, log[i].pending, i >= turn)
  }

  lemma LogOne(log: seq<Entry>, e: Entry)
    ensures MarshalAll(Packets(log + [e])) == MarshalAll(Packets(log)) + Marshal(e.packet)
    ensures MarshalAll(KeptOf(log + [e])) == MarshalAll(KeptOf(log)) + if e.fate == Kept then Marshal(e.packet) else []
  {
    hide Marshal;
    var more := log + [e];
    assert more[..|log|] == log;
    assert Packets(more) == Packets(log) + [e.packet];
    assert Packets(more)[..|log|] == Packets(log);
    if e.fate == Kept {
      assert (KeptOf(log) + [e.packet])[..|KeptOf(log)|] == KeptOf(log);
    } else {
      assert KeptOf(log) + [] == KeptOf(log);
      assert MarshalAll(KeptOf(log)) + [] == MarshalAll(KeptOf(log));
    }
  }

  /** The log tells what of the raw stream was read and what of it the hijack buffer holds. */
  ghost predicate Tracked(log: seq<Entry>, raw: Bytes, rest: Bytes, kept: Bytes,
                          hijacked: bool, turn: nat, limit: nat)
  {
    && raw == MarshalAll(Packets(log)) + rest
    && kept == MarshalAll(KeptOf(log))
    && TurnsAt(log, if hijacked then turn else |log|)
    && (forall i :: 0 <= i < |log| ==> Complete(log[i].packet, limit))
  }

  lemma TrackedOne(log: seq<Entry>, raw: Bytes, rest: Bytes, kept: Bytes, hijacked: bool, turn: nat, limit: nat,
                   e: Entry, rest': Bytes)
    requires Tracked(log, raw, rest, kept, hijacked, turn, limit)
    requires rest == Marshal(e.packet) + rest' && Complete(e.packet, limit)
    requires e.fate == Due(e.packet, e.pending, hijacked)
    ensures Tracked(log + [e], raw, rest', if e.fate == Kept then kept + Marshal(e.packet) else kept,
                    hijacked, turn, limit)
  {
    hide Marshal, MarshalAll, Packets, KeptOf, Complete;
    LogOne(log, e);
    assert MarshalAll(KeptOf(log)) + [] == MarshalAll(KeptOf(log));
    assert (log + [e])[|log|] == e;
    assert forall i :: 0 <= i < |log| ==> (log + [e])[i] == log[i];
  }

  lemma NothingTracked(raw: Bytes, limit: nat)
    ensures Tracked([], raw, raw, [], false, 0, limit)
  {
    assert Packets([]) == [] && [] + raw == raw;
  }

  lemma TrackedLater(log: seq<Entry>, raw: Bytes, rest: Bytes, kept: Bytes, hijacked: bool, turn: nat, limit: nat)
    requires Tracked(log, raw, rest, kept, hijacked, turn, limit)
    ensures Tracked(log, raw, rest, kept, true, if hijacked then turn else |log|, limit)
  {
  }

  lemma TrackedTells(log: seq<Entry>, raw: Bytes, rest: Bytes, kept: Bytes, hijacked: bool, turn: nat, limit: nat)
    requires Tracked(log, raw, rest, kept, hijacked, turn, limit)
    ensures raw == MarshalAll(Packets(log)) + rest && kept == MarshalAll(KeptOf(log))
    ensures hijacked ==> TurnsAt(log, turn)
    ensures forall i :: 0 <= i < |log| ==> Complete(log[i].packet, limit)
  {
  }

  /** The reader of a channel, as far as a hijack is concerned. */
  class ChannelReader {
    const stream: StreamReader
    var hijacked: bool
    /** The codes of the calls that wait for a response. */
    var pending: set<Pending.Code>
    /** What the new owner is given to read before the socket. */
    var hijackReadBuffer: Bytes
    ghost var log: seq<Entry>
    /** How long the log was when the reader first saw the hijack. */
    ghost var turn: nat

    constructor (stream: StreamReader)
      ensures this.stream == stream && log == [] && !hijacked
    {
      this.stream, hijacked, pending, hijackReadBuffer, log, turn := stream, false, {}, [], [], 0;
    }

    /**
     * The hijack may come at any time, and calls come and go. When the connection is handed over, the raw
     * stream was the packets of the log and a tail, and the new owner reads, from the buffer and then the
     * socket, exactly the kept packets and that tail: responses are removed whole and nothing else is touched.
     */
    method Run() returns (exit: Exit, ghost tail: Bytes)
      requires stream.Valid() && !hijacked && log == []
      modifies this, stream, stream.buf, stream.source
      ensures exit == HandedOver ==> hijacked && TurnsAt(log, turn)
      ensures exit == HandedOver ==> old(stream.source.Pending()) == MarshalAll(Packets(log)) + tail
      ensures exit == HandedOver ==> hijackReadBuffer + stream.source.socket == MarshalAll(KeptOf(log)) + tail
      ensures exit == HandedOver ==> forall i :: 0 <= i < |log| ==> Complete(log[i].packet, stream.sizeLimit)
    {
      hide Marshal, DecPacket, Tracked, MarshalAll, Packets, KeptOf, TurnsAt, Complete;
      var hijackBuffer: Bytes := [];
      turn := 0;
      ghost var raw := stream.source.Pending();
      assert Tracked(log, raw, raw, [], false, 0, stream.sizeLimit) by {
        NothingTracked(raw, stream.sizeLimit);
      }
      while true
        invariant Tracked(log, raw, stream.source.Pending(), hijackBuffer, hijacked, turn, stream.sizeLimit)
        decreases |stream.source.Pending()|
      {
        ghost var before := stream.source.Pending();
        var packet, err := stream.ReadPacket();
        Notice(hijackBuffer, raw, before);
        ghost var after := stream.source.Pending();
        if err != NoError {
          TrackedTells(log, raw, before, hijackBuffer, hijacked, turn, stream.sizeLimit);
          if err == Timeout && hijacked {
            HandOver(packet, hijackBuffer);
            assert hijackReadBuffer + stream.source.socket == hijackBuffer + (Marshal(packet)[..stream.n] + after);
            return HandedOver, before;
          }
          return Broken, [];
        }
        assert before == Marshal(packet) + after by {
          assert Marshal(packet)[..stream.n] == Marshal(packet);
        }
        var fate;
        hijackBuffer, fate := Dispose(packet, hijackBuffer, raw, before, after);
      }
    }

    /** Calls come and go; a hijack may have set the flag by now, and it is never taken back. */
    method Notice(hijackBuffer: Bytes, ghost raw: Bytes, ghost rest: Bytes)
      requires Tracked(log, raw, rest, hijackBuffer, hijacked, turn, stream.sizeLimit)
      modifies this`hijacked, this`turn, this`pending
      ensures old(hijacked) ==> hijacked && turn == old(turn)
      ensures Tracked(log, raw, rest, hijackBuffer, hijacked, turn, stream.sizeLimit)
    {
      hide Tracked;
      pending := *;
      if * {
        TrackedLater(log, raw, rest, hijackBuffer, hijacked, turn, stream.sizeLimit);
        turn := if hijacked then turn else |log|;
        hijacked := true;
      }
    }

    /** A whole packet: it resolves the call it is for, if one is pending, or is kept after a hijack, or dispatched. */
    method Dispose(packet: Packet, hijackBuffer: Bytes, ghost raw: Bytes, ghost before: Bytes, ghost after: Bytes)
      returns (kept: Bytes, fate: Fate)
      requires Tracked(log, raw, before, hijackBuffer, hijacked, turn, stream.sizeLimit)
      requires before == Marshal(packet) + after && Complete(packet, stream.sizeLimit)
      modifies this`log, this`pending
      ensures Tracked(log, raw, after, kept, hijacked, turn, stream.sizeLimit)
      ensures fate == Response <==> Pending.Code(packet.msg, packet.sync) in old(pending)
      ensures fate == Kept <==> Pending.Code(packet.msg, packet.sync) !in old(pending) && hijacked
      ensures pending == old(pending) - {Pending.Code(packet.msg, packet.sync)}
      ensures log == old(log) + [Entry(packet, old(pending), fate)]
      ensures kept == hijackBuffer + if fate == Kept then Marshal(packet) else []
    {
      hide Marshal, Tracked, Complete;
      kept := hijackBuffer;
      ghost var was := pending;
      var isResponse := Resolve(packet);
      if isResponse {
        fate := Response;
      } else if hijacked {
        var p := MarshalPacket(packet);
        kept := kept + p;
        fate := Kept;
      } else {
        fate := Dispatched;
      }
      TrackedOne(log, raw, before, hijackBuffer, hijacked, turn, stream.sizeLimit, Entry(packet, was, fate), after);
      log := log + [Entry(packet, was, fate)];
    }

    /** The store of pending calls gives up the call of that code, if it has one. */
    method Resolve(packet: Packet) returns (resolved: bool)
      modifies this`pending
      ensures resolved <==> CodeOf(packet) in old(pending)
      ensures pending == old(pending) - {CodeOf(packet)}
    {
      resolved := CodeOf(packet) in pending;
      pending := pending - {CodeOf(packet)};
    }

    /** A packet that was being read is given back as its first bytes, then what was read ahead of it. */
    method HandOver(packet: Packet, hijackBuffer: Bytes)
      requires stream.n <= |Marshal(packet)|
      modifies this`hijackReadBuffer
      ensures hijackReadBuffer == hijackBuffer + Marshal(packet)[..stream.n] + stream.source.buffered
    {
      hide Marshal;
      hijackReadBuffer := hijackBuffer;
      if stream.n != 0 {
        var p := MarshalPacket(packet);
        hijackReadBuffer := hijackReadBuffer + p[..stream.n];
      }
      hijackReadBuffer := hijackReadBuffer + stream.source.buffered;
    }
  }
}
