/** Packets on a byte stream: writing them, reading them back, and giving up in the middle of one. */
module Framing {

  import opened Common
  import opened Wire

  const HEADER: int := 12

  datatype Packet = Packet(msg: U32, len: U32, sync: U32, data: Bytes)

  /** The bytes of a packet as its header tells them: the length is the header's and not the data's. */
  function Marshal(p: Packet): (s: Bytes)
    ensures |s| == HEADER + |p.data|
  {
    Le(p.msg, 4) + Le(p.len, 4) + Le(p.sync, 4) + p.data
  }

  predicate Complete(p: Packet, limit: nat) { p.len == |p.data| <= limit }

  /** Reading one packet from bytes that do not run dry in between. */
  function DecPacket(s: Bytes, limit: nat): Read<Packet> {
    if |s| < HEADER then Failed
    else
      var len := FromLe(s[4..8]);
      if len > limit || HEADER + len > |s| then Failed
      else Got(Packet(Word(s, 0), Word(s, 4), Word(s, 8), s[HEADER..HEADER + len]), s[HEADER + len..])
  }

  function Word(s: Bytes, at: nat): U32
    requires at + 4 <= |s|
  {
    FromLeFits(s[at..at + 4]);
    Powers();
    FromLe(s[at..at + 4])
  }

  lemma MarshalWords(p: Packet, t: Bytes)
    ensures var s := Marshal(p) + t;
      Word(s, 0) == p.msg && Word(s, 4) == p.len && Word(s, 8) == p.sync
  {
    hide Le, FromLe, Pow;
    var s := Marshal(p) + t;
    Powers();
    assert s[0..4] == Le(p.msg, 4) && s[4..8] == Le(p.len, 4) && s[8..12] == Le(p.sync, 4);
    LeInverse(p.msg, 4);
    LeInverse(p.len, 4);
    LeInverse(p.sync, 4);
  }

  /** A packet whose header tells its length is read back, and what follows is left. */
  lemma PacketInverse(p: Packet, t: Bytes, limit: nat)
    requires Complete(p, limit)
    ensures DecPacket(Marshal(p) + t, limit) == Got(p, t)
  {
    hide Le;
    MarshalWords(p, t);
    var s := Marshal(p) + t;
    assert s[HEADER..HEADER + p.len] == p.data && s[HEADER + p.len..] == t;
  }

  /** Conversely what is read is the packet whose bytes were consumed. */
  lemma DecPacketConsumes(s: Bytes, limit: nat)
    requires DecPacket(s, limit).Got?
    ensures var r := DecPacket(s, limit);
      Complete(r.value, limit) && s == Marshal(r.value) + r.rest
  {
    hide Le, FromLe;
    FromLeInverse(s[0..4]);
    FromLeInverse(s[4..8]);
    FromLeInverse(s[8..12]);
    var len := FromLe(s[4..8]);
    assert s == s[0..4] + s[4..8] + s[8..12] + s[HEADER..HEADER + len] + s[HEADER + len..];
  }

  /** A packet that is cut short anywhere, or tells a length over the limit, is not read. */
  lemma PacketRefused(p: Packet, t: Bytes, k: nat, limit: nat)
    requires p.len == |p.data|
    ensures k < |Marshal(p)| ==> DecPacket(Marshal(p)[..k], limit) == Failed
    ensures p.len > limit ==> DecPacket(Marshal(p) + t, limit) == Failed
  {
    hide Le, FromLe;
    MarshalWords(p, t);
    MarshalWords(p, []);
    assert Marshal(p) + [] == Marshal(p);
    if HEADER <= k < |Marshal(p)| {
      assert Marshal(p)[..k][4..8] == Marshal(p)[4..8];
    }
  }

  function MarshalAll(ps: seq<Packet>): Bytes {
    if ps == [] then [] else MarshalAll(ps[..|ps| - 1]) + Marshal(ps[|ps| - 1])
  }

  // ---------------------------------------------------------------------------------------------
  // Writing
  // ---------------------------------------------------------------------------------------------

  method PutUint32(p: array<Byte>, at: nat, v: U32)
    requires at + 4 <= p.Length
    modifies p
    ensures p[..] == old(p[..at]) + Le(v, 4) + old(p[at + 4..])
  {
    LeBytes(v, 4);
    BytePowers();
    p[at], p[at + 1] := v % 256, v / 0x100 % 256;
    p[at + 2], p[at + 3] := v / 0x1_0000 % 256, v / 0x100_0000 % 256;
    assert p[at..at + 4] == Le(v, 4);
    assert p[..] == p[..at] + p[at..at + 4] + p[at + 4..];
    assert p[..at] == old(p[..at]) && p[at + 4..] == old(p[at + 4..]);
  }

  /** The slice must have room for the packet. */
  method PutPacket(p: array<Byte>, pkt: Packet)
    requires HEADER + |pkt.data| <= p.Length
    modifies p
    ensures p[..] == Marshal(pkt) + old(p[HEADER + |pkt.data|..])
  {
    hide Le;
    ghost var was := p[..];
    ghost var a, b, c := Le(pkt.msg, 4), Le(pkt.len, 4), Le(pkt.sync, 4);
    PutUint32(p, 0, pkt.msg);
    assert p[..] == a + was[4..];
    PutUint32(p, 4, pkt.len);
    assert p[..] == a + b + was[8..];
    PutUint32(p, 8, pkt.sync);
    assert p[..] == a + b + c + was[HEADER..];
    CopyAt(p, HEADER, pkt.data);
  }

  method CopyAt(p: array<Byte>, at: nat, data: Bytes)
    requires at + |data| <= p.Length
    modifies p
    ensures p[..] == old(p[..at]) + data + old(p[at + |data|..])
  {
    for i := 0 to |data|
      invariant p[..at] == old(p[..at]) && p[at..at + i] == data[..i] && p[at + i..] == old(p[at + i..])
    {
      p[at + i] := data[i];
      assert p[at..at + i + 1] == p[at..at + i] + [data[i]];
    }
    assert p[..] == p[..at] + p[at..at + |data|] + p[at + |data|..];
  }

  method MarshalPacket(pkt: Packet) returns (s: Bytes)
    ensures s == Marshal(pkt)
  {
    var p := new Byte[HEADER + |pkt.data|](i => 0);
    PutPacket(p, pkt);
    s := p[..];
    assert p[HEADER + |pkt.data|..] == [];
  }

  // ---------------------------------------------------------------------------------------------
  // Reading
  // ---------------------------------------------------------------------------------------------

  datatype Err = NoError | Timeout | Eof | TooBig

  /**
   * A buffered reader over a connection: bytes move from the socket to the buffer in pieces of any size. A
   * steady source never gives up before it is empty; any other may report an error at any moment.
   */
  class Source {
    const steady: bool
    var buffered: Bytes
    var socket: Bytes

    constructor (steady: bool, socket: Bytes)
      ensures this.steady == steady && Pending() == socket
    {
      this.steady, buffered, this.socket := steady, [], socket;
    }

    /** All bytes still to be read. */
    ghost function Pending(): Bytes
      reads this
    {
      buffered + socket
    }

    method Read(max: nat) returns (bs: Bytes, err: Err)
      requires max > 0
      modifies this
      ensures bs + Pending() == old(Pending()) && |bs| <= max
      ensures err == NoError <==> bs != []
      ensures err == NoError || err == Eof || (err == Timeout && !steady)
      ensures steady && bs == [] ==> Pending() == []
    {
      if * {
        if !steady { return [], Timeout; }
      }
      if * {
        if !steady { return [], Eof; }
      }
      if buffered == [] {
        if socket == [] {
          return [], Eof;
        }
        var k :| 1 <= k <= |socket|;
        assert socket == socket[..k] + socket[k..];
        buffered, socket := socket[..k], socket[k..];
      }
      var j := Min(max, |buffered|);
      bs, err := buffered[..j], NoError;
      assert buffered == buffered[..j] + buffered[j..];
      buffered := buffered[j..];
    }

    /** Fills the buffer from its start, until it is full or there is an error. */
    method ReadFull(buf: array<Byte>) returns (n: nat, err: Err)
      modifies this, buf
      ensures n <= buf.Length && (err == NoError <==> n == buf.Length)
      ensures buf[..n] + Pending() == old(Pending()) && buf[n..] == old(buf[n..])
      ensures err == NoError || err == Eof || (err == Timeout && !steady)
      ensures steady && err != NoError ==> Pending() == []
    {
      n, err := 0, NoError;
      ghost var all := Pending();
      while n < buf.Length
        invariant n <= buf.Length
        invariant buf[..n] + Pending() == all && buf[n..] == old(buf[n..])
        decreases buf.Length - n
      {
        var bs;
        bs, err := Read(buf.Length - n);
        if err != NoError {
          return;
        }
        ghost var rest := Pending();
        CopyAt(buf, n, bs);
        assert buf[..n + |bs|] + rest == all;
        n := n + |bs|;
      }
      err := NoError;
    }
  }

  class StreamReader {
    const source: Source
    const sizeLimit: U32
    const buf: array<Byte>
    /** How many bytes of the last packet were read. */
    var n: nat

    ghost predicate Valid() { buf.Length == HEADER }

    constructor (source: Source, sizeLimit: U32)
      ensures Valid() && this.source == source && this.sizeLimit == sizeLimit && fresh(buf)
    {
      this.source, this.sizeLimit, n := source, sizeLimit, 0;
      buf := new Byte[HEADER](i => 0);
    }

    /**
     * However far the read comes, the bytes it took are the first bytes of the packet it returns, also when
     * the packet is no more than a piece of a header.
     */
    method ReadPacket() returns (p: Packet, err: Err)
      requires Valid()
      modifies this, buf, source
      ensures n <= |Marshal(p)| && Marshal(p)[..n] + source.Pending() == old(source.Pending())
      ensures err == NoError ==> Complete(p, sizeLimit) && n == |Marshal(p)|
      ensures err == NoError ==> DecPacket(old(source.Pending()), sizeLimit) == Got(p, source.Pending())
      ensures source.steady && err != NoError ==> DecPacket(old(source.Pending()), sizeLimit) == Failed
    {
      hide Le, FromLe;
      ghost var all := source.Pending();
      p, err := ReadHeader();
      if err != NoError {
        return;
      }
      assert all[..HEADER] == Marshal(p)[..HEADER];
      MarshalWords(p, source.Pending());
      assert all == Marshal(p) + source.Pending();
      if p.len > sizeLimit {
        return p, TooBig;
      }
      p, err := ReadBody(p, all);
    }

    /** The data behind a header that has just been read. */
    method ReadBody(header: Packet, ghost all: Bytes) returns (p: Packet, err: Err)
      requires n == HEADER && header.data == [] && header.len <= sizeLimit
      requires all == Marshal(header) + source.Pending()
      modifies this, source
      ensures n <= |Marshal(p)| && Marshal(p)[..n] + source.Pending() == all
      ensures err == NoError ==> Complete(p, sizeLimit) && n == |Marshal(p)|
      ensures err == NoError ==> DecPacket(all, sizeLimit) == Got(p, source.Pending())
      ensures source.steady && err != NoError ==> HEADER + header.len > |all|
    {
      hide Le, FromLe, DecPacket;
      var data := new Byte[header.len](i => 0);
      var m;
      m, err := source.ReadFull(data);
      n := n + m;
      p := header.(data := data[..]);
      assert Marshal(p) == Marshal(header) + data[..];
      assert Marshal(p)[..n] == Marshal(header) + data[..m];
      if err == NoError {
        PacketInverse(p, source.Pending(), sizeLimit);
        assert Marshal(p)[..n] == Marshal(p);
      }
    }

    method ReadHeader() returns (p: Packet, err: Err)
      requires Valid()
      modifies this, buf, source
      ensures p.data == [] && n <= HEADER && (err == NoError <==> n == HEADER)
      ensures Marshal(p)[..n] + source.Pending() == old(source.Pending())
      ensures source.steady && err != NoError ==> source.Pending() == []
    {
      hide Le, FromLe;
      n, err := source.ReadFull(buf);
      var s := buf[..];
      p := Packet(Word(s, 0), Word(s, 4), Word(s, 8), []);
      FromLeInverse(s[0..4]);
      FromLeInverse(s[4..8]);
      FromLeInverse(s[8..12]);
      assert s == s[0..4] + s[4..8] + s[8..12] + [];
      assert Marshal(p) == s;
      assert s[..n] == buf[..n];
    }
  }
}
