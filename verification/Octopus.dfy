/** Tuples and requests of the box protocol, on top of the wire form of integers and byte strings. */
module Octopus {

  import opened Common
  import opened Wire

  type Tuple = seq<Bytes>

  // ---------------------------------------------------------------------------------------------
  // Counted lists
  // ---------------------------------------------------------------------------------------------

  function Enc32(v: nat): Bytes { EncUint(v % TWO_TO_THE_32, 32, Default) }

  function Dec32(s: Bytes): Read<nat> { DecUint(s, 32, Default) }

  lemma Inverse32(v: nat, t: Bytes)
    requires v < TWO_TO_THE_32
    ensures Dec32(Enc32(v) + t) == Got(v, t) && |Enc32(v)| == 4
  {
    Powers();
    UintInverse(v, 32, Default, t);
  }

  function EncCounted<T>(enc: T -> Bytes, xs: seq<T>): Bytes { Enc32(|xs|) + EncMany(enc, xs) }

  function DecCounted<T>(dec: Bytes -> Read<T>, s: Bytes): Read<seq<T>> {
    var (n, rest) :- Dec32(s);
    DecMany(dec, rest, n)
  }

  lemma CountedInverse<T>(enc: T -> Bytes, dec: Bytes -> Read<T>, xs: seq<T>, t: Bytes)
    requires |xs| < TWO_TO_THE_32
    requires forall x :: x in xs ==> Inverse(enc, dec, x, |EncMany(enc, xs) + t| + 1)
    ensures DecCounted(dec, EncCounted(enc, xs) + t) == Got(xs, t)
  {
    hide Enc32, Dec32;
    Inverse32(|xs|, EncMany(enc, xs) + t);
    assert EncCounted(enc, xs) + t == Enc32(|xs|) + (EncMany(enc, xs) + t);
    ManyInverse(enc, dec, xs, t, |EncMany(enc, xs) + t| + 1);
  }

  // ---------------------------------------------------------------------------------------------
  // Fields and tuples
  // ---------------------------------------------------------------------------------------------

  function EncField(f: Bytes): Bytes { EncBytes(f, Ber) }
  function DecField(s: Bytes): Read<Bytes> { DecBytes(s, Ber) }

  function EncTuple(t: Tuple): Bytes { EncCounted(EncField, t) }
  function DecTuple(s: Bytes): Read<Tuple> { DecCounted(DecField, s) }

  function EncTuples(ts: seq<Tuple>): Bytes { EncCounted(EncTuple, ts) }
  function DecTuples(s: Bytes): Read<seq<Tuple>> { DecCounted(DecTuple, s) }

  /** Every length and count can be told in 32 bits. */
  predicate TupleFits(t: Tuple) {
    |t| < TWO_TO_THE_32 && forall f :: f in t ==> |f| < TWO_TO_THE_32
  }

  predicate TuplesFit(ts: seq<Tuple>) {
    |ts| < TWO_TO_THE_32 && forall t :: t in ts ==> TupleFits(t)
  }

  lemma FieldInverse(f: Bytes, t: Bytes)
    requires |f| < TWO_TO_THE_32
    ensures DecField(EncField(f) + t) == Got(f, t)
  {
    BytesInverse(f, Ber, t);
  }

  lemma TupleInverse(t: Tuple, rest: Bytes)
    requires TupleFits(t)
    ensures DecTuple(EncTuple(t) + rest) == Got(t, rest)
  {
    forall f | f in t ensures Inverse(EncField, DecField, f, |EncMany(EncField, t) + rest| + 1) {
      forall r: Bytes | |EncField(f) + r| < |EncMany(EncField, t) + rest| + 1
        ensures DecField(EncField(f) + r) == Got(f, r)
      {
        FieldInverse(f, r);
      }
    }
    CountedInverse(EncField, DecField, t, rest);
  }

  lemma TuplesInverse(ts: seq<Tuple>, rest: Bytes)
    requires TuplesFit(ts)
    ensures DecTuples(EncTuples(ts) + rest) == Got(ts, rest)
  {
    forall t | t in ts ensures Inverse(EncTuple, DecTuple, t, |EncMany(EncTuple, ts) + rest| + 1) {
      forall r: Bytes | |EncTuple(t) + r| < |EncMany(EncTuple, ts) + rest| + 1
        ensures DecTuple(EncTuple(t) + r) == Got(t, r)
      {
        TupleInverse(t, r);
      }
    }
    CountedInverse(EncTuple, DecTuple, ts, rest);
  }

  method PackField(w: Bytes, f: Bytes) returns (r: Bytes)
    ensures r == w + EncField(f)
  {
    r := PackBytes(w, f, Ber);
  }

  method PackCount(w: Bytes, n: nat) returns (r: Bytes)
    ensures r == w + Enc32(n)
  {
    r := PackUint32(w, n % TWO_TO_THE_32, Default);
  }

  /** Keys and tuples have the same form. */
  method PackTuple(w: Bytes, t: Tuple) returns (r: Bytes)
    ensures r == w + EncTuple(t)
  {
    hide Enc32, EncField;
    r := PackCount(w, |t|);
    for i := 0 to |t|
      invariant r == w + (Enc32(|t|) + EncMany(EncField, t[..i]))
    {
      assert t[..i + 1][..i] == t[..i];
      r := PackField(r, t[i]);
    }
    assert t[..|t|] == t;
  }

  method PackTuples(w: Bytes, ts: seq<Tuple>) returns (r: Bytes)
    ensures r == w + EncTuples(ts)
  {
    hide Enc32, EncTuple;
    r := PackCount(w, |ts|);
    for i := 0 to |ts|
      invariant r == w + (Enc32(|ts|) + EncMany(EncTuple, ts[..i]))
    {
      assert ts[..i + 1][..i] == ts[..i];
      r := PackTuple(r, ts[i]);
    }
    assert ts[..|ts|] == ts;
  }

  method UnpackField(r: Reader) returns (f: Bytes, ok: bool)
    requires r.Valid()
    modifies r
    ensures r.Valid() && Agrees(DecField(old(r.Rest())), ok, f, r.Rest())
  {
    f, ok := UnpackBytes(r, Ber);
  }

  method UnpackTuple(r: Reader) returns (t: Tuple, ok: bool)
    requires r.Valid()
    modifies r
    ensures r.Valid() && Agrees(DecTuple(old(r.Rest())), ok, t, r.Rest())
  {
    hide DecField;
    var n, got := UnpackUint32(r, Default);
    if !got {
      return [], false;
    }
    t := [];
    ghost var first := r.Rest();
    AfterJoins(t, t, DecMany(DecField, first, n));
    for i := 0 to n
      invariant r.Valid()
      invariant DecMany(DecField, first, n) == After(t, DecMany(DecField, r.Rest(), n - i))
    {
      var f, gotField := UnpackField(r);
      if !gotField {
        return [], false;
      }
      AfterJoins(t, [f], DecMany(DecField, r.Rest(), n - i - 1));
      t := t + [f];
    }
    AfterJoins(t, [], Failed);
    return t, true;
  }

  method UnpackTuples(r: Reader) returns (ts: seq<Tuple>, ok: bool)
    requires r.Valid()
    modifies r
    ensures r.Valid() && Agrees(DecTuples(old(r.Rest())), ok, ts, r.Rest())
  {
    hide DecTuple;
    var n, got := UnpackUint32(r, Default);
    if !got {
      return [], false;
    }
    ts := [];
    ghost var first := r.Rest();
    AfterJoins(ts, ts, DecMany(DecTuple, first, n));
    for i := 0 to n
      invariant r.Valid()
      invariant DecMany(DecTuple, first, n) == After(ts, DecMany(DecTuple, r.Rest(), n - i))
    {
      var t, gotTuple := UnpackTuple(r);
      if !gotTuple {
        return [], false;
      }
      AfterJoins(ts, [t], DecMany(DecTuple, r.Rest(), n - i - 1));
      ts := ts + [t];
    }
    AfterJoins(ts, [], Failed);
    return ts, true;
  }

  // ---------------------------------------------------------------------------------------------
  // Sizes computed ahead
  // ---------------------------------------------------------------------------------------------

  function ByteLen(length: U32): U32 {
    (length + if length < 0x80 then 1 else if length < 0x4000 then 2
              else if length < 0x20_0000 then 3 else if length < 0x1000_0000 then 4 else 5) % TWO_TO_THE_32
  }

  /** The size told for a field is the size of its encoding, in 32-bit arithmetic. */
  lemma ByteLenAgrees(f: Bytes)
    ensures ByteLen(|f| % TWO_TO_THE_32) == |EncField(f)| % TWO_TO_THE_32
  {
    hide Ber128, Pow;
    Powers();
    var n := |f| % TWO_TO_THE_32;
    BerLen(n, 1);
    BerLen(n, 2);
    BerLen(n, 3);
    BerLen(n, 4);
    BerLen(n, 5);
    assert |Ber128(n)| >= 1 by {
      hide *;
      BerNotEmpty(n);
    }
  }

  lemma BerNotEmpty(v: nat)
    ensures |Ber128(v)| >= 1
  {
  }

  lemma AddWraps(a: int, b: int)
    ensures (a % TWO_TO_THE_32 + b % TWO_TO_THE_32) % TWO_TO_THE_32 == (a + b) % TWO_TO_THE_32
  {
  }

  method PackedTupleLen(t: Tuple) returns (n: U32)
    ensures n == |EncTuple(t)| % TWO_TO_THE_32
  {
    hide EncField, ByteLen;
    n := 4;
    for i := 0 to |t|
      invariant n == (4 + |EncMany(EncField, t[..i])|) % TWO_TO_THE_32
    {
      assert t[..i + 1][..i] == t[..i];
      ByteLenAgrees(t[i]);
      AddWraps(4 + |EncMany(EncField, t[..i])|, |EncField(t[i])|);
      n := (n + ByteLen(|t[i]| % TWO_TO_THE_32)) % TWO_TO_THE_32;
    }
    assert t[..|t|] == t;
  }

  method PackedTuplesLen(ts: seq<Tuple>) returns (n: U32)
    ensures n == |EncTuples(ts)| % TWO_TO_THE_32
  {
    hide EncTuple;
    n := 4;
    for i := 0 to |ts|
      invariant n == (4 + |EncMany(EncTuple, ts[..i])|) % TWO_TO_THE_32
    {
      assert ts[..i + 1][..i] == ts[..i];
      var k := PackedTupleLen(ts[i]);
      AddWraps(4 + |EncMany(EncTuple, ts[..i])|, |EncTuple(ts[i])|);
      n := (n + k) % TWO_TO_THE_32;
    }
    assert ts[..|ts|] == ts;
  }
}
