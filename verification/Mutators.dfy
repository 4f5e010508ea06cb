/**
 * Generated records with 32-bit fields: setters and mutators change the field and queue an operation for the
 * database, and the two stay in step.
 */
module Mutators {

  import opened Common
  import opened Wire
  import opened Octopus
  import opened Requests

  /** The order of the operation codes is the protocol's. */
  const OP_SET: Byte := 0
  const OP_ADD: Byte := 1
  const OP_AND: Byte := 2
  const OP_XOR: Byte := 3
  const OP_OR: Byte := 4

  /** The byte that tells the database what to do. */
  lemma CodesOnTheWire(field: U32, value: Bytes)
    ensures EncOp(Op(field, OP_SET, value))[4] == 0 && EncOp(Op(field, OP_ADD, value))[4] == 1
    ensures EncOp(Op(field, OP_AND, value))[4] == 2 && EncOp(Op(field, OP_XOR, value))[4] == 3
    ensures EncOp(Op(field, OP_OR, value))[4] == 4
  {
  }

  datatype Format = Int32 | Uint32

  function Lowest(f: Format): int { if f == Int32 then -0x8000_0000 else 0 }
  function Highest(f: Format): int { if f == Int32 then 0x7fff_ffff else 0xffff_ffff }

  predicate InRange(f: Format, v: int) { Lowest(f) <= v <= Highest(f) }

  /** The 32 bits of a number, and the number of a format that has these bits. */
  function Word(v: int): U32 { v % TWO_TO_THE_32 }
  function Conv(f: Format, v: int): int { (v - Lowest(f)) % TWO_TO_THE_32 + Lowest(f) }

  /** The conversion to 64 unsigned bits extends the sign. */
  function U64(v: int): nat { v % TWO_TO_THE_64 }

  lemma ConvWord(f: Format, v: int)
    ensures InRange(f, Conv(f, v)) && Word(Conv(f, v)) == Word(v)
    ensures InRange(f, v) ==> Conv(f, v) == v
  {
  }

  // ---------------------------------------------------------------------------------------------
  // Bits
  // ---------------------------------------------------------------------------------------------

  datatype Gate = And | Or | Xor

  function Bit(g: Gate, a: nat, b: nat): nat {
    match g
    case And => if a == 1 && b == 1 then 1 else 0
    case Or => if a == 1 || b == 1 then 1 else 0
    case Xor => if a != b then 1 else 0
  }

  /** The low `n` bits put through the gate one by one. */
  function Bits(g: Gate, a: nat, b: nat, n: nat): nat {
    if n == 0 then 0 else 2 * Bits(g, a / 2, b / 2, n - 1) + Bit(g, a % 2, b % 2)
  }

  function Gated(g: Gate, a: U32, b: U32): (r: U32) {
    BitsFit(g, a, b, 32);
    PowersOfTwo32();
    Bits(g, a, b, 32)
  }

  lemma PowersOfTwo32()
    ensures Pow(2, 32) == TWO_TO_THE_32
  {
    assert Pow(2, 4) == 16;
    assert Pow(2, 8) == 16 * Pow(2, 4);
    assert Pow(2, 16) == 256 * Pow(2, 8) by { assert Pow(2, 12) == 16 * Pow(2, 8); }
    assert Pow(2, 24) == 256 * Pow(2, 16) by { assert Pow(2, 20) == 16 * Pow(2, 16); }
    assert Pow(2, 32) == 256 * Pow(2, 24) by { assert Pow(2, 28) == 16 * Pow(2, 24); }
  }

  lemma {:induction false} BitsFit(g: Gate, a: nat, b: nat, n: nat)
    ensures Bits(g, a, b, n) < Pow(2, n)
  {
    if n > 0 {
      BitsFit(g, a / 2, b / 2, n - 1);
    }
  }

  function Not(a: U32): U32 { 0xffff_ffff - a }

  /** Nothing and everything as arguments. */
  lemma {:induction false} Neutral(a: nat, n: nat)
    requires a < Pow(2, n)
    ensures Bits(And, 0, a, n) == 0 && Bits(Or, a, 0, n) == a && Bits(Xor, a, 0, n) == a
    ensures Bits(And, a, Pow(2, n) - 1, n) == a
  {
    if n > 0 {
      Neutral(a / 2, n - 1);
      assert (Pow(2, n) - 1) / 2 == Pow(2, n - 1) - 1 && (Pow(2, n) - 1) % 2 == 1;
    }
  }

  /** Bit `i` of a number is set. */
  predicate HasBit(v: nat, i: nat) { v / Pow(2, i) % 2 == 1 }

  lemma HasBitNext(v: nat, i: nat)
    ensures HasBit(v, i + 1) <==> HasBit(v / 2, i)
    ensures HasBit(v, 0) <==> v % 2 == 1
  {
    DivTwice(v, Pow(2, i));
  }

  lemma DivTwice(v: nat, m: nat)
    requires m > 0
    ensures v / (2 * m) == v / 2 / m
  {
    var q, r := v / (2 * m), v % (2 * m);
    assert v / 2 == q * m + r / 2;
    DivIsUnique(v / 2, m, q, r / 2);
  }

  lemma {:induction false} BitsHaveBits(g: Gate, a: nat, b: nat, i: nat, n: nat)
    requires i < n
    ensures HasBit(Bits(g, a, b, n), i) <==>
      match g
      case And => HasBit(a, i) && HasBit(b, i)
      case Or => HasBit(a, i) || HasBit(b, i)
      case Xor => HasBit(a, i) != HasBit(b, i)
  {
    hide HasBit;
    var r := Bits(g, a, b, n);
    assert r / 2 == Bits(g, a / 2, b / 2, n - 1) && r % 2 == Bit(g, a % 2, b % 2);
    var k := if i == 0 then 0 else i - 1;
    HasBitNext(r, k);
    HasBitNext(a, k);
    HasBitNext(b, k);
    if i > 0 {
      BitsHaveBits(g, a / 2, b / 2, i - 1, n - 1);
    }
  }

  lemma {:induction false} BitsAddUp(a: nat, b: nat, n: nat)
    requires a < Pow(2, n) && b < Pow(2, n)
    ensures Bits(And, a, b, n) + Bits(Or, a, b, n) == a + b
    ensures Bits(Xor, a, b, n) + Bits(And, a, b, n) == Bits(Or, a, b, n)
  {
    if n > 0 {
      BitsAddUp(a / 2, b / 2, n - 1);
    }
  }

  /** The gates are and, or and exclusive or of each of the 32 bits. */
  lemma GatedBits(a: U32, b: U32, i: nat)
    requires i < 32
    ensures Gated(And, a, b) / Pow(2, i) % 2 == 1 <==> a / Pow(2, i) % 2 == 1 && b / Pow(2, i) % 2 == 1
    ensures Gated(Or, a, b) / Pow(2, i) % 2 == 1 <==> a / Pow(2, i) % 2 == 1 || b / Pow(2, i) % 2 == 1
    ensures Gated(Xor, a, b) / Pow(2, i) % 2 == 1 <==> a / Pow(2, i) % 2 != b / Pow(2, i) % 2
  {
    hide Bits;
    BitsHaveBits(And, a, b, i, 32);
    BitsHaveBits(Or, a, b, i, 32);
    BitsHaveBits(Xor, a, b, i, 32);
  }

  /** Or and and share out the sum, and exclusive or is their difference. */
  lemma GatedSums(a: U32, b: U32)
    ensures Gated(And, a, b) + Gated(Or, a, b) == a + b
    ensures Gated(Xor, a, b) == Gated(Or, a, b) - Gated(And, a, b)
  {
    hide Bits;
    PowersOfTwo32();
    BitsAddUp(a, b, 32);
  }

  /** Keeping the bits outside the argument clears those inside it. */
  lemma ClearedBits(a: U32, arg: U32, i: nat)
    requires i < 32
    ensures Gated(And, a, Not(arg)) / Pow(2, i) % 2 == 1 <==> a / Pow(2, i) % 2 == 1 && arg / Pow(2, i) % 2 != 1
  {
    hide Gated, Pow, Not;
    GatedBits(a, Not(arg), i);
    NotBits(arg, i);
  }

  lemma NotBits(a: U32, i: nat)
    requires i < 32
    ensures Not(a) / Pow(2, i) % 2 == 1 <==> a / Pow(2, i) % 2 != 1
  {
    PowersOfTwo32();
    NotHasOthers(a, i, 32);
  }

  lemma {:induction false} NotHasOthers(a: nat, i: nat, n: nat)
    requires i < n && a < Pow(2, n)
    ensures HasBit(Pow(2, n) - 1 - a, i) <==> !HasBit(a, i)
  {
    hide HasBit;
    var r := Pow(2, n) - 1 - a;
    assert r / 2 == Pow(2, n - 1) - 1 - a / 2 && r % 2 != a % 2;
    var k := if i == 0 then 0 else i - 1;
    HasBitNext(r, k);
    HasBitNext(a, k);
    if i > 0 {
      NotHasOthers(a / 2, i - 1, n - 1);
    }
  }

  // ---------------------------------------------------------------------------------------------
  // The database
  // ---------------------------------------------------------------------------------------------

  function PackWord(v: int): Bytes { Le(Word(v), 4) }

  function PackAll(fields: seq<int>): (t: Tuple)
    ensures |t| == |fields|
  {
    seq(|fields|, i requires 0 <= i < |fields| => PackWord(fields[i]))
  }

  function Combine(code: Byte, a: U32, b: U32): U32
    requires OP_ADD <= code <= OP_OR
  {
    if code == OP_ADD then Word(a + b)
    else Gated(if code == OP_AND then And else if code == OP_XOR then Xor else Or, a, b)
  }

  function Number(s: Bytes): U32
    requires |s| == 4
  {
    FromLeFits(s);
    Powers();
    FromLe(s)
  }

  /** What the database does with one operation; arithmetic takes four bytes on both sides. */
  function Apply(o: Op, t: Tuple): Option<Tuple> {
    if o.field >= |t| then None
    else if o.code == OP_SET then Some(t[o.field := o.value])
    else if o.code <= OP_OR && |o.value| == 4 && |t[o.field]| == 4 then
      Some(t[o.field := Le(Combine(o.code, Number(t[o.field]), Number(o.value)), 4)])
    else None
  }

  function Replay(ops: seq<Op>, t: Tuple): Option<Tuple> {
    if ops == [] then Some(t)
    else
      var before := Replay(ops[..|ops| - 1], t);
      if before.None? then None else Apply(ops[|ops| - 1], before.value)
  }

  lemma ReplayOne(ops: seq<Op>, o: Op, t: Tuple)
    ensures Replay(ops + [o], t) == if Replay(ops, t).None? then None else Apply(o, Replay(ops, t).value)
  {
    assert (ops + [o])[..|ops|] == ops;
  }

  lemma NumberOfWord(v: int)
    ensures Number(PackWord(v)) == Word(v)
  {
    Powers();
    LeInverse(Word(v), 4);
  }

  /** An operation on the packed fields is the operation on the field. */
  lemma ApplyWord(fields: seq<int>, i: nat, code: Byte, arg: int, v: int)
    requires i < |fields| && i < TWO_TO_THE_32 && OP_ADD <= code <= OP_OR
    requires Word(v) == Combine(code, Word(fields[i]), Word(arg))
    ensures Apply(Op(i, code, PackWord(arg)), PackAll(fields)) == Some(PackAll(fields[i := v]))
  {
    hide Combine, Le;
    NumberOfWord(fields[i]);
    NumberOfWord(arg);
    assert PackAll(fields)[i := PackWord(v)] == PackAll(fields[i := v]);
  }

  lemma ApplySet(fields: seq<int>, i: nat, v: int)
    requires i < |fields| && i < TWO_TO_THE_32
    ensures Apply(Op(i, OP_SET, PackWord(v)), PackAll(fields)) == Some(PackAll(fields[i := v]))
  {
    assert PackAll(fields)[i := PackWord(v)] == PackAll(fields[i := v]);
  }

  lemma AddWord(a: int, b: int)
    ensures Word(a + b) == Combine(OP_ADD, Word(a), Word(b))
  {
  }

  // ---------------------------------------------------------------------------------------------
  // The guards of Inc and Dec
  // ---------------------------------------------------------------------------------------------

  /** The difference is taken in the field's own width and both sides are then read as unsigned. */
  predicate IncRefused(f: Format, v: int, arg: int) { U64(Conv(f, Highest(f) - v)) < U64(arg) }

  predicate DecRefused(v: int, arg: int) { U64(Conv(Int32, v - Lowest(Int32))) < U64(arg) }

  /**
   * With an argument that is not negative, Inc is refused exactly when the sum leaves the type. With a
   * negative one it is the other way round: below zero it is taken exactly when the sum leaves the type.
   */
  lemma IncRefusedWhen(f: Format, v: int, arg: int)
    requires InRange(f, v) && InRange(f, arg)
    ensures arg >= 0 ==> (IncRefused(f, v, arg) <==> !InRange(f, v + arg))
    ensures arg < 0 ==> (IncRefused(f, v, arg) <==> v >= 0 || InRange(f, v + arg))
  {
  }

  lemma DecRefusedWhen(v: int, arg: int)
    requires InRange(Int32, v) && InRange(Int32, arg)
    ensures arg >= 0 ==> (DecRefused(v, arg) <==> !InRange(Int32, v - arg))
    ensures arg < 0 ==> (DecRefused(v, arg) <==> v < 0 || InRange(Int32, v - arg))
  {
  }

  /** A negative argument can wrap a field around. */
  lemma NegativeIncWraps()
    ensures !IncRefused(Int32, -1, -0x8000_0000) && Conv(Int32, -1 + -0x8000_0000) == 0x7fff_ffff
  {
  }

  // ---------------------------------------------------------------------------------------------
  // The record
  // ---------------------------------------------------------------------------------------------

  /** Replaying the queued operations on the stored tuple gives the packed fields. */
  ghost predicate InStep(ops: seq<Op>, stored: Tuple, fields: seq<int>) {
    Replay(ops, stored) == Some(PackAll(fields))
  }

  /** What the fields are when a tuple is loaded: only the first four bytes of each count. */
  function Unpacked(formats: seq<Format>, t: Tuple): (fields: seq<int>)
    requires |t| == |formats|
    ensures |fields| == |formats|
  {
    seq(|formats|, i requires 0 <= i < |formats| => UnpackedField(formats[i], t[i]))
  }

  function UnpackedField(f: Format, s: Bytes): int {
    var r := Dec32(s);
    if r.Got? then Conv(f, r.value) else 0
  }

  lemma PackOfUnpacked(f: Format, s: Bytes)
    requires s != []
    ensures PackWord(UnpackedField(f, s)) == s <==> |s| == 4
  {
    hide Le, FromLe, Conv, Pow;
    if |s| == 4 {
      assert s[..4] == s;
      FromLeFits(s);
      Powers();
      ConvWord(f, FromLe(s));
      assert Word(FromLe(s)) == FromLe(s);
      FromLeInverse(s);
    }
  }

  /** A loaded record is in step exactly when every stored field has four bytes. */
  lemma LoadedInStep(formats: seq<Format>, t: Tuple)
    requires |t| == |formats| && forall i :: 0 <= i < |t| ==> t[i] != []
    ensures InStep([], t, Unpacked(formats, t)) <==> forall i :: 0 <= i < |t| ==> |t[i]| == 4
  {
    hide UnpackedField, PackWord;
    var fields := Unpacked(formats, t);
    forall i | 0 <= i < |t| ensures PackWord(fields[i]) == t[i] <==> |t[i]| == 4 {
      PackOfUnpacked(formats[i], t[i]);
    }
    if forall i :: 0 <= i < |t| ==> |t[i]| == 4 {
      assert PackAll(fields) == t;
    } else {
      var i :| 0 <= i < |t| && |t[i]| != 4;
      assert PackAll(fields)[i] != t[i];
    }
  }

  predicate Additions(ops: seq<Op>, width: nat) {
    forall k :: 0 <= k < |ops| ==> ops[k].code == OP_ADD && |ops[k].value| == 4 && ops[k].field < width
  }

  /** All that the queued additions add to a field. */
  function Added(ops: seq<Op>, i: nat, width: nat): nat
    requires Additions(ops, width)
  {
    if ops == [] then 0
    else
      var last := ops[|ops| - 1];
      Added(ops[..|ops| - 1], i, width) + if last.field == i then Number(last.value) else 0
  }

  /** Additions carry the difference and not the value: on any tuple they add the same to what is there. */
  lemma {:induction false} AdditionsAddToAny(ops: seq<Op>, t: Tuple, i: nat)
    requires Additions(ops, |t|) && i < |t| && forall k :: 0 <= k < |t| ==> |t[k]| == 4
    ensures Replay(ops, t).Some?
    ensures var t' := Replay(ops, t).value;
      && |t'| == |t| && (forall k :: 0 <= k < |t| ==> |t'[k]| == 4)
      && Number(t'[i]) == Word(Number(t[i]) + Added(ops, i, |t|))
    decreases |ops|
  {
    hide Number, Le;
    if ops != [] {
      var n := |ops| - 1;
      AdditionsAddToAny(ops[..n], t, i);
      var before := Replay(ops[..n], t).value;
      var o := ops[n];
      NumberOfLe(Combine(OP_ADD, Number(before[o.field]), Number(o.value)));
      AddWord(Number(t[i]) + Added(ops[..n], i, |t|), Number(o.value));
    }
  }

  lemma NumberOfLe(v: U32)
    ensures Number(Le(v, 4)) == v
  {
    Powers();
    LeInverse(v, 4);
  }

  /** What becomes of an update: done, refused, or the call fails and the request may have been applied. */
  datatype Reply = Accepted | Refused | Lost(applied: bool)

  // ---------------------------------------------------------------------------------------------
  // Tuples that others have changed
  // ---------------------------------------------------------------------------------------------

  predicate WellFormed(ops: seq<Op>, width: nat) {
    forall k :: 0 <= k < |ops| ==> ops[k].code <= OP_OR && |ops[k].value| == 4 && ops[k].field < width
  }

  predicate Words(t: Tuple) { forall k :: 0 <= k < |t| ==> |t[k]| == 4 }

  /** What the queue makes of one field. */
  function Effect(ops: seq<Op>, i: nat, v: U32, width: nat): U32
    requires WellFormed(ops, width)
  {
    if ops == [] then v
    else
      var o, w := ops[|ops| - 1], Effect(ops[..|ops| - 1], i, v, width);
      if o.field != i then w else if o.code == OP_SET then Number(o.value) else Combine(o.code, w, Number(o.value))
  }

  lemma {:induction false} ReplayIsEffect(ops: seq<Op>, t: Tuple, i: nat)
    requires WellFormed(ops, |t|) && Words(t) && i < |t|
    ensures Replay(ops, t).Some?
    ensures var t' := Replay(ops, t).value;
      |t'| == |t| && Words(t') && Number(t'[i]) == Effect(ops, i, Number(t[i]), |t|)
    decreases |ops|
  {
    hide Number, Le, Combine;
    if ops != [] {
      var n := |ops| - 1;
      ReplayIsEffect(ops[..n], t, i);
      var before, o := Replay(ops[..n], t).value, ops[n];
      if o.code != OP_SET {
        NumberOfLe(Combine(o.code, Number(before[o.field]), Number(o.value)));
      }
    }
  }

  /** Some operation overwrites the field. */
  predicate Overwritten(ops: seq<Op>, i: nat) {
    exists k :: 0 <= k < |ops| && ops[k].field == i && ops[k].code == OP_SET
  }

  /** Since the field was last overwritten, if it was, nothing masked bits of it away. */
  function Reversible(ops: seq<Op>, i: nat): bool {
    if ops == [] then true
    else
      var o, before := ops[|ops| - 1], ops[..|ops| - 1];
      if o.field != i then Reversible(before, i)
      else if o.code == OP_SET then true
      else (o.code == OP_ADD || o.code == OP_XOR) && Reversible(before, i)
  }

  lemma {:induction false} EffectSame(ops: seq<Op>, i: nat, v: U32, w: U32, width: nat)
    requires WellFormed(ops, width)
    ensures v == w || Overwritten(ops, i) ==> Effect(ops, i, v, width) == Effect(ops, i, w, width)
    ensures Reversible(ops, i) && Effect(ops, i, v, width) == Effect(ops, i, w, width) ==> v == w || Overwritten(ops, i)
    decreases |ops|
  {
    hide Number, Combine;
    if ops != [] {
      var n := |ops| - 1;
      var o, a, b := ops[n], Effect(ops[..n], i, v, width), Effect(ops[..n], i, w, width);
      EffectSame(ops[..n], i, v, w, width);
      assert Overwritten(ops[..n], i) ==> Overwritten(ops, i) by {
        if k :| 0 <= k < n && ops[..n][k].field == i && ops[..n][k].code == OP_SET {
          assert ops[k].field == i && ops[k].code == OP_SET;
        }
      }
      assert Overwritten(ops, i) ==> Overwritten(ops[..n], i) || (o.field == i && o.code == OP_SET) by {
        if k :| 0 <= k < |ops| && ops[k].field == i && ops[k].code == OP_SET {
          assert k < n ==> ops[..n][k] == ops[k];
        }
      }
      if o.field == i && (o.code == OP_ADD || o.code == OP_XOR) {
        CombineReverses(o.code, a, b, Number(o.value));
      }
    }
  }

  lemma CombineReverses(code: Byte, a: U32, b: U32, arg: U32)
    requires code == OP_ADD || code == OP_XOR
    ensures Combine(code, a, arg) == Combine(code, b, arg) ==> a == b
  {
    hide Bits, Pow;
    PowersOfTwo32();
    if code == OP_XOR && Combine(code, a, arg) == Combine(code, b, arg) {
      XorReverses(a, b, arg, 32);
    }
  }

  lemma {:induction false} XorReverses(a: nat, b: nat, arg: nat, n: nat)
    requires a < Pow(2, n) && b < Pow(2, n) && Bits(Xor, a, arg, n) == Bits(Xor, b, arg, n)
    ensures a == b
  {
    if n > 0 {
      XorReverses(a / 2, b / 2, arg / 2, n - 1);
    }
  }

  /** Field by field, what the database holds agrees with what was loaded, or is overwritten anyway. */
  predicate AgreesOrOverwritten(ops: seq<Op>, loaded: Tuple, t: Tuple) {
    |t| == |loaded| && forall i :: 0 <= i < |t| ==> Overwritten(ops, i) || t[i] == loaded[i]
  }

  /**
   * An update applied to a tuple that others may have changed leaves the fields of the record in the database
   * if every field is overwritten or still as loaded; and only then, unless bits were masked.
   */
  lemma SyncedExactly(ops: seq<Op>, loaded: Tuple, t: Tuple, fields: seq<int>)
    requires InStep(ops, loaded, fields) && WellFormed(ops, |t|) && |t| == |loaded| && Words(t) && Words(loaded)
    ensures AgreesOrOverwritten(ops, loaded, t) ==> InStep(ops, t, fields)
    ensures (forall i :: 0 <= i < |t| ==> Reversible(ops, i)) ==>
      (InStep(ops, t, fields) <==> AgreesOrOverwritten(ops, loaded, t))
  {
    hide Effect, Replay, Reversible, Overwritten, Words, PackAll;
    if t == [] {
      assert t == loaded;
      return;
    }
    ReplayIsEffect(ops, t, 0);
    ReplayIsEffect(ops, loaded, 0);
    var u, v := Replay(ops, t).value, Replay(ops, loaded).value;
    forall i | 0 <= i < |t|
      ensures Overwritten(ops, i) || t[i] == loaded[i] ==> u[i] == v[i]
      ensures Reversible(ops, i) && u[i] == v[i] ==> Overwritten(ops, i) || t[i] == loaded[i]
    {
      FieldSynced(ops, loaded, t, i);
    }
    assert AgreesOrOverwritten(ops, loaded, t) ==> u == v;
  }

  lemma FieldSynced(ops: seq<Op>, loaded: Tuple, t: Tuple, i: nat)
    requires WellFormed(ops, |t|) && |t| == |loaded| && Words(t) && Words(loaded) && i < |t|
    ensures Replay(ops, t).Some? && Replay(ops, loaded).Some?
    ensures |Replay(ops, t).value| == |t| == |Replay(ops, loaded).value|
    ensures Overwritten(ops, i) || t[i] == loaded[i] ==> Replay(ops, t).value[i] == Replay(ops, loaded).value[i]
    ensures Reversible(ops, i) && Replay(ops, t).value[i] == Replay(ops, loaded).value[i] ==>
      Overwritten(ops, i) || t[i] == loaded[i]
  {
    hide Effect, Replay, Reversible, Overwritten;
    ReplayIsEffect(ops, t, i);
    ReplayIsEffect(ops, loaded, i);
    EffectSame(ops, i, Number(t[i]), Number(loaded[i]), |t|);
    NumberTells(t[i], loaded[i]);
    NumberTells(Replay(ops, t).value[i], Replay(ops, loaded).value[i]);
  }

  lemma NumberTells(a: Bytes, b: Bytes)
    requires |a| == 4 && |b| == 4
    ensures Number(a) == Number(b) <==> a == b
  {
    FromLeInverse(a);
    FromLeInverse(b);
  }

  /** Since the field was last overwritten, if it was, only bit operations were queued for it. */
  function Bitwise(ops: seq<Op>, i: nat): bool {
    if ops == [] then true
    else
      var o, before := ops[|ops| - 1], ops[..|ops| - 1];
      if o.field != i then Bitwise(before, i) else o.code == OP_SET || (o.code != OP_ADD && Bitwise(before, i))
  }

  const ALL_ONES: U32 := 0xffff_ffff

  /** The bits of the field that still matter to the result. */
  function Passed(ops: seq<Op>, i: nat, width: nat): U32
    requires WellFormed(ops, width)
  {
    Gated(Xor, Effect(ops, i, 0, width), Effect(ops, i, ALL_ONES, width))
  }

  /** Bit by bit, `a` is `o` where `v` is set and `z` where it is not. */
  predicate Selects(v: nat, a: nat, z: nat, o: nat, n: nat) {
    n == 0 || (a % 2 == (if v % 2 == 1 then o % 2 else z % 2) && Selects(v / 2, a / 2, z / 2, o / 2, n - 1))
  }

  lemma {:induction false} SelectsItself(v: nat, c: nat, n: nat)
    ensures Selects(v, v, 0, Pow(2, n) - 1, n) && Selects(v, c, c, c, n)
  {
    if n > 0 {
      SelectsItself(v / 2, c / 2, n - 1);
      assert (Pow(2, n) - 1) / 2 == Pow(2, n - 1) - 1 && (Pow(2, n) - 1) % 2 == 1;
    }
  }

  lemma {:induction false} SelectsThroughGate(g: Gate, v: nat, a: nat, z: nat, o: nat, m: nat, n: nat)
    requires Selects(v, a, z, o, n)
    ensures Selects(v, Bits(g, a, m, n), Bits(g, z, m, n), Bits(g, o, m, n), n)
  {
    if n > 0 {
      SelectsThroughGate(g, v / 2, a / 2, z / 2, o / 2, m / 2, n - 1);
      assert Bits(g, a, m, n) / 2 == Bits(g, a / 2, m / 2, n - 1) && Bits(g, a, m, n) % 2 == Bit(g, a % 2, m % 2);
      assert Bits(g, z, m, n) / 2 == Bits(g, z / 2, m / 2, n - 1) && Bits(g, z, m, n) % 2 == Bit(g, z % 2, m % 2);
      assert Bits(g, o, m, n) / 2 == Bits(g, o / 2, m / 2, n - 1) && Bits(g, o, m, n) % 2 == Bit(g, o % 2, m % 2);
    }
  }

  /** Two selections agree exactly when the selectors agree where the choices differ. */
  lemma {:induction false} SelectionsAgree(v: nat, w: nat, a: nat, b: nat, z: nat, o: nat, n: nat)
    requires Selects(v, a, z, o, n) && Selects(w, b, z, o, n) && a < Pow(2, n) && b < Pow(2, n)
    ensures a == b <==> Bits(And, v, Bits(Xor, z, o, n), n) == Bits(And, w, Bits(Xor, z, o, n), n)
  {
    if n > 0 {
      var k := Bits(Xor, z, o, n);
      SelectionsAgree(v / 2, w / 2, a / 2, b / 2, z / 2, o / 2, n - 1);
      assert k / 2 == Bits(Xor, z / 2, o / 2, n - 1) && k % 2 == Bit(Xor, z % 2, o % 2);
      assert a == 2 * (a / 2) + a % 2 && b == 2 * (b / 2) + b % 2;
    }
  }

  lemma {:induction false} EffectSelects(ops: seq<Op>, i: nat, v: U32, width: nat)
    requires WellFormed(ops, width) && Bitwise(ops, i)
    ensures Selects(v, Effect(ops, i, v, width), Effect(ops, i, 0, width), Effect(ops, i, ALL_ONES, width), 32)
    decreases |ops|
  {
    hide Number, Selects, Bits;
    PowersOfTwo32();
    SelectsItself(v, 0, 32);
    if ops != [] {
      var n := |ops| - 1;
      var o := ops[n];
      if o.field != i {
        EffectSelects(ops[..n], i, v, width);
      } else if o.code == OP_SET {
        SelectsItself(v, Number(o.value), 32);
      } else {
        EffectSelects(ops[..n], i, v, width);
        var g := if o.code == OP_AND then And else if o.code == OP_XOR then Xor else Or;
        SelectsThroughGate(g, v, Effect(ops[..n], i, v, width), Effect(ops[..n], i, 0, width),
                           Effect(ops[..n], i, ALL_ONES, width), Number(o.value), 32);
      }
    }
  }

  /**
   * A field with bit operations only comes out as the record has it exactly when what the database holds and
   * what was loaded agree on the bits that were let through.
   */
  lemma MaskedFieldSynced(ops: seq<Op>, loaded: Tuple, t: Tuple, i: nat)
    requires WellFormed(ops, |t|) && |t| == |loaded| && Words(t) && Words(loaded) && i < |t| && Bitwise(ops, i)
    ensures Replay(ops, t).Some? && Replay(ops, loaded).Some?
    ensures |Replay(ops, t).value| == |t| == |Replay(ops, loaded).value|
    ensures var k := Passed(ops, i, |t|);
      Replay(ops, t).value[i] == Replay(ops, loaded).value[i]
      <==> Gated(And, Number(t[i]), k) == Gated(And, Number(loaded[i]), k)
  {
    hide Effect, Replay, Selects, Bits, Number, Bitwise;
    var v, w := Number(t[i]), Number(loaded[i]);
    ReplayIsEffect(ops, t, i);
    ReplayIsEffect(ops, loaded, i);
    EffectSelects(ops, i, v, |t|);
    EffectSelects(ops, i, w, |t|);
    PowersOfTwo32();
    SelectionsAgree(v, w, Effect(ops, i, v, |t|), Effect(ops, i, w, |t|),
                    Effect(ops, i, 0, |t|), Effect(ops, i, ALL_ONES, |t|), 32);
    NumberTells(Replay(ops, t).value[i], Replay(ops, loaded).value[i]);
  }

  /** One added to five here and to seven there: the update succeeds and the record holds another number. */
  lemma UpdateNotSynced()
    ensures var ops := [Op(0, OP_ADD, PackWord(1))];
      && InStep(ops, PackAll([5]), [6])
      && Replay(ops, PackAll([7])) == Some(PackAll([8])) && PackAll([8]) != PackAll([6])
  {
    hide Apply, PackWord, Combine, Number;
    var o := Op(0, OP_ADD, PackWord(1));
    AddWord(5, 1);
    AddWord(7, 1);
    ApplyWord([5], 0, OP_ADD, 1, 6);
    ApplyWord([7], 0, OP_ADD, 1, 8);
    assert [5][0 := 6] == [6] && [7][0 := 8] == [8];
    ReplaySingle(o, PackAll([5]));
    ReplaySingle(o, PackAll([7]));
    NumberOfWord(8);
    NumberOfWord(6);
    assert PackAll([8])[0] == PackWord(8) && PackAll([6])[0] == PackWord(6);
  }

  lemma ReplaySingle(o: Op, t: Tuple)
    ensures Replay([o], t) == Apply(o, t)
  {
    assert [o][..0] == [];
  }

  /**
   * A request that was applied although its call failed is applied again by a retry: that leaves the fields
   * in the database if every field is overwritten or was not changed by the queue, and only then, unless bits
   * were masked.
   */
  lemma RetryInStep(ops: seq<Op>, loaded: Tuple, fields: seq<int>)
    requires InStep(ops, loaded, fields) && WellFormed(ops, |loaded|) && |fields| == |loaded| && Words(loaded)
    ensures AgreesOrOverwritten(ops, loaded, PackAll(fields)) ==> InStep(ops, PackAll(fields), fields)
    ensures (forall i :: 0 <= i < |loaded| ==> Reversible(ops, i)) ==>
      (InStep(ops, PackAll(fields), fields) <==> AgreesOrOverwritten(ops, loaded, PackAll(fields)))
  {
    SyncedExactly(ops, loaded, PackAll(fields), fields);
  }

  /** Fields behind those of the record are left alone. */
  lemma {:induction false} ExtraFieldsStay(ops: seq<Op>, t: Tuple, extra: Tuple)
    requires forall k :: 0 <= k < |ops| ==> ops[k].field < |t|
    ensures Replay(ops, t).None? <==> Replay(ops, t + extra).None?
    ensures Replay(ops, t).Some? ==>
      |Replay(ops, t).value| == |t| && Replay(ops, t + extra) == Some(Replay(ops, t).value + extra)
    decreases |ops|
  {
    hide Combine, Number;
    if ops != [] {
      var n := |ops| - 1;
      ExtraFieldsStay(ops[..n], t, extra);
      if Replay(ops[..n], t).Some? {
        var u, o := Replay(ops[..n], t).value, ops[n];
        assert (u + extra)[o.field] == u[o.field];
        if Apply(o, u).Some? {
          var x := Apply(o, u).value[o.field];
          assert (u + extra)[o.field := x] == u[o.field := x] + extra;
        }
      }
    }
  }

  /** The fields of the primary key, packed in its order. */
  function KeyOf(fields: seq<int>, primary: seq<nat>): Tuple
    requires forall k :: 0 <= k < |primary| ==> primary[k] < |fields|
  {
    seq(|primary|, k requires 0 <= k < |primary| && primary[k] < |fields| => PackWord(fields[primary[k]]))
  }

  class Record {
    const formats: seq<Format>
    /** The fields of the primary key, in its order. */
    const primary: seq<nat>
    var fields: seq<int>
    var present: bool
    var ops: seq<Op>
    var extraFields: Tuple
    /** The tuple as the record last knew it: as it was loaded, or as an accepted update would have left it. */
    ghost var loaded: Tuple

    ghost predicate Typed()
      reads this
    {
      && |fields| == |formats| < TWO_TO_THE_32
      && (forall i :: 0 <= i < |fields| ==> InRange(formats[i], fields[i]))
      && (forall i :: 0 <= i < |primary| ==> primary[i] < |formats|) && |primary| < TWO_TO_THE_32
      && WellFormed(ops, |fields|)
    }

    ghost predicate Valid()
      reads this
    {
      Typed() && InStep(ops, loaded, fields) && |loaded| == |fields|
    }

    /** Puts one change into the field and the queue. */
    method Queue(i: nat, code: Byte, arg: int, v: int)
      requires Valid() && i < |fields| && InRange(formats[i], v) && code <= OP_OR
      requires Apply(Op(i, code, PackWord(arg)), PackAll(fields)) == Some(PackAll(fields[i := v]))
      modifies this
      ensures Valid() && fields == old(fields)[i := v] && present == old(present) && loaded == old(loaded)
      ensures ops == old(ops) + [Op(i, code, PackWord(arg))]
    {
      hide Apply, PackAll, Replay;
      ReplayOne(ops, Op(i, code, PackWord(arg)), loaded);
      ops := ops + [Op(i, code, PackWord(arg))];
      fields := fields[i := v];
    }

    /** A record that is not in the database yet. */
    constructor (formats: seq<Format>, primary: seq<nat>)
      requires |formats| < TWO_TO_THE_32 && |primary| < TWO_TO_THE_32
      requires forall i :: 0 <= i < |primary| ==> primary[i] < |formats|
      ensures Valid() && this.formats == formats && this.primary == primary && !present && ops == []
    {
      this.formats, this.primary, present, ops := formats, primary, false, [];
      fields, extraFields := seq(|formats|, i => 0), [];
      loaded := PackAll(seq(|formats|, i => 0));
    }

    /** A field of the primary key is not changed any more once the record exists. */
    method Set(i: nat, v: int) returns (ok: bool)
      requires Valid() && i < |fields| && InRange(formats[i], v)
      modifies this
      ensures Valid() && present == old(present) && loaded == old(loaded)
      ensures ok <==> !(present && i in primary)
      ensures fields == if ok then old(fields)[i := v] else old(fields)
      ensures ops == old(ops) + if ok then [Op(i, OP_SET, PackWord(v))] else []
    {
      if i in primary && present {
        return false;
      }
      hide Replay, Apply;
      ApplySet(fields, i, v);
      Queue(i, OP_SET, v, v);
      return true;
    }

    /** Nothing is queued for zero. */
    method Inc(i: nat, arg: int) returns (ok: bool)
      requires Valid() && i < |fields| && InRange(formats[i], arg)
      modifies this
      ensures Valid() && present == old(present) && loaded == old(loaded)
      ensures ok <==> arg == 0 || !IncRefused(formats[i], old(fields[i]), arg)
      ensures fields == if ok then old(fields)[i := Conv(formats[i], old(fields[i]) + arg)] else old(fields)
      ensures ops == old(ops) + if ok && arg != 0 then [Op(i, OP_ADD, PackWord(arg))] else []
      ensures arg >= 0 ==> (ok <==> InRange(formats[i], old(fields[i]) + arg))
      ensures arg >= 0 && ok ==> fields == old(fields)[i := old(fields[i]) + arg]
    {
      hide Replay, Apply, U64, Conv;
      var v := fields[i] + arg;
      IncRefusedWhen(formats[i], fields[i], arg);
      ConvWord(formats[i], v);
      if arg == 0 {
        assert old(fields)[i := fields[i]] == old(fields);
        return true;
      }
      if U64(Conv(formats[i], Highest(formats[i]) - fields[i])) < U64(arg) {
        return false;
      }
      AddWord(fields[i], arg);
      ApplyWord(fields, i, OP_ADD, arg, Conv(formats[i], v));
      Queue(i, OP_ADD, arg, Conv(formats[i], v));
      return true;
    }

    /** Only signed fields have it: the code generated for unsigned ones does not compile. */
    method Dec(i: nat, arg: int) returns (ok: bool)
      requires Valid() && i < |fields| && formats[i] == Int32 && InRange(Int32, arg)
      modifies this
      ensures Valid() && present == old(present) && loaded == old(loaded)
      ensures ok <==> arg == 0 || !DecRefused(old(fields[i]), arg)
      ensures fields == if ok then old(fields)[i := Conv(Int32, old(fields[i]) - arg)] else old(fields)
      ensures ops == old(ops) + if ok && arg != 0 then [Op(i, OP_ADD, PackWord(-arg))] else []
      ensures arg >= 0 ==> (ok <==> InRange(Int32, old(fields[i]) - arg))
      ensures arg >= 0 && ok ==> fields == old(fields)[i := old(fields[i]) - arg]
    {
      hide Replay, Apply, U64, Conv;
      var v := fields[i] - arg;
      DecRefusedWhen(fields[i], arg);
      ConvWord(Int32, v);
      if arg == 0 {
        assert old(fields)[i := fields[i]] == old(fields);
        return true;
      }
      if U64(Conv(Int32, fields[i] - Lowest(Int32))) < U64(arg) {
        return false;
      }
      AddWord(fields[i], -arg);
      ApplyWord(fields, i, OP_ADD, -arg, Conv(Int32, v));
      Queue(i, OP_ADD, -arg, Conv(Int32, v));
      return true;
    }

    /** Bits are only for unsigned fields. Nothing is queued when nothing would change. */
    method AndBits(i: nat, arg: U32)
      requires Valid() && i < |fields| && formats[i] == Uint32
      modifies this
      ensures Valid() && present == old(present) && loaded == old(loaded)
      ensures fields == old(fields)[i := Gated(And, old(fields[i]), arg)]
      ensures ops == old(ops) + if fields == old(fields) then [] else [Op(i, OP_AND, PackWord(arg))]
    {
      hide Replay, Apply, Gated;
      if fields[i] == 0 || Gated(And, fields[i], arg) == fields[i] {
        ZeroAnd(arg);
        assert old(fields)[i := fields[i]] == old(fields);
        return;
      }
      QueueGate(i, OP_AND, And, arg);
    }

    /** Setting bits is the same operation. */
    method OrBits(i: nat, arg: U32)
      requires Valid() && i < |fields| && formats[i] == Uint32
      modifies this
      ensures Valid() && present == old(present) && loaded == old(loaded)
      ensures fields == old(fields)[i := Gated(Or, old(fields[i]), arg)]
      ensures ops == old(ops) + if fields == old(fields) then [] else [Op(i, OP_OR, PackWord(arg))]
    {
      hide Replay, Apply, Gated;
      if arg == 0 || Gated(Or, fields[i], arg) == fields[i] {
        NeutralArgs(fields[i]);
        assert old(fields)[i := fields[i]] == old(fields);
        return;
      }
      QueueGate(i, OP_OR, Or, arg);
    }

    method XorBits(i: nat, arg: U32)
      requires Valid() && i < |fields| && formats[i] == Uint32
      modifies this
      ensures Valid() && present == old(present) && loaded == old(loaded)
      ensures fields == old(fields)[i := Gated(Xor, old(fields[i]), arg)]
      ensures ops == old(ops) + if fields == old(fields) then [] else [Op(i, OP_XOR, PackWord(arg))]
    {
      hide Replay, Apply, Gated;
      if arg == 0 || Gated(Xor, fields[i], arg) == fields[i] {
        NeutralArgs(fields[i]);
        assert old(fields)[i := fields[i]] == old(fields);
        return;
      }
      QueueGate(i, OP_XOR, Xor, arg);
    }

    /** Clearing bits is queued as keeping the others. */
    method ClearBits(i: nat, arg: U32)
      requires Valid() && i < |fields| && formats[i] == Uint32
      modifies this
      ensures Valid() && present == old(present) && loaded == old(loaded)
      ensures fields == old(fields)[i := Gated(And, old(fields[i]), Not(arg))]
      ensures ops == old(ops) + if fields == old(fields) then [] else [Op(i, OP_AND, PackWord(Not(arg)))]
    {
      hide Replay, Apply, Gated;
      if arg == 0 || Gated(And, fields[i], Not(arg)) == fields[i] {
        NeutralArgs(fields[i]);
        assert old(fields)[i := fields[i]] == old(fields);
        return;
      }
      QueueGate(i, OP_AND, And, Not(arg));
    }

    method QueueGate(i: nat, code: Byte, g: Gate, arg: U32)
      requires Valid() && i < |fields| && formats[i] == Uint32 && OP_AND <= code <= OP_OR
      requires g == if code == OP_AND then And else if code == OP_XOR then Xor else Or
      modifies this
      ensures Valid() && present == old(present) && loaded == old(loaded)
      ensures fields == old(fields)[i := Gated(g, old(fields[i]), arg)]
      ensures ops == old(ops) + [Op(i, code, PackWord(arg))]
    {
      hide Replay, Apply, Gated;
      ApplyWord(fields, i, code, arg, Gated(g, fields[i], arg));
      Queue(i, code, arg, Gated(g, fields[i], arg));
    }

    /**
     * Sends the queue to a database that holds the tuple `db`, whatever others made of it. The request names
     * the namespace, the primary key and the very operations queued. An accepted update empties the queue, and
     * the tuple of the response is not looked at: the record keeps its fields. After a failed call the queue
     * stays, and the database may have applied the request all the same.
     */
    method Send(ns: U32, ghost db: Tuple, reply: Reply)
      returns (ok: bool, request: Option<Bytes>, ghost db': Tuple)
      requires Valid() && |ops| < TWO_TO_THE_32
      requires reply != Refused ==> Replay(ops, db).Some?
      modifies this
      ensures Valid() && fields == old(fields) && present == old(present)
      ensures request.Some? <==> present && old(ops) != []
      ensures request.Some? ==> request.value == EncUpdate(Update(ns, KeyOf(fields, primary), old(ops)))
      ensures request.Some? ==> DecUpdate(request.value) == Got(Update(ns, KeyOf(fields, primary), old(ops)), [])
      ensures ok <==> present && (old(ops) == [] || reply == Accepted)
      ensures if present && old(ops) != [] && (reply == Accepted || reply == Lost(true))
              then Some(db') == Replay(old(ops), db) else db' == db
      ensures ok ==> ops == []
      ensures ok && db == old(loaded) ==> db' == PackAll(fields)
      ensures !ok ==> ops == old(ops) && loaded == old(loaded)
    {
      hide Apply, PackWord, EncUpdate, DecUpdate, Replay;
      db' := db;
      if !present {
        return false, None, db;
      }
      if |ops| == 0 {
        ReplayNothing(db);
        ReplayNothing(loaded);
        return true, None, db;
      }
      var key := PackPrimary();
      var w, capacity := PackUpdate(Update(ns, key, ops));
      UpdateInverse(Update(ns, key, ops));
      request := Some(w);
      ghost var received := DecUpdate(w).value.ops;
      if reply == Accepted || reply == Lost(true) {
        db' := Replay(received, db).value;
      }
      if reply != Accepted {
        return false, request, db';
      }
      ops, loaded := [], PackAll(fields);
      ReplayNothing(loaded);
      return true, request, db';
    }

    method PackPrimary() returns (key: Tuple)
      requires Typed()
      ensures TupleFits(key) && key == KeyOf(fields, primary)
    {
      key := [];
      for k := 0 to |primary|
        invariant |key| == k
        invariant key == KeyOf(fields, primary[..k])
        invariant forall f :: f in key ==> |f| == 4
      {
        key := key + [PackWord(fields[primary[k]])];
      }
    }
  }

  lemma ZeroAnd(arg: U32)
    ensures Gated(And, 0, arg) == 0
  {
    PowersOfTwo32();
    Neutral(arg, 32);
  }

  lemma NeutralArgs(v: U32)
    ensures Gated(Or, v, 0) == v && Gated(Xor, v, 0) == v && Gated(And, v, Not(0)) == v
  {
    PowersOfTwo32();
    Neutral(v, 32);
  }

  lemma ReplayNothing(t: Tuple)
    ensures Replay([], t) == Some(t)
  {
  }

  /** Loading a tuple: fields are set one by one, what that queued is dropped, and fields behind are put aside. */
  method TupleToStruct(formats: seq<Format>, primary: seq<nat>, t: Tuple) returns (r: Option<Record>)
    requires |formats| <= |t| && |formats| < TWO_TO_THE_32 && |primary| < TWO_TO_THE_32
    requires forall i :: 0 <= i < |primary| ==> primary[i] < |formats|
    ensures r.None? <==> exists i :: 0 <= i < |formats| && t[i] == []
    ensures r.Some? ==>
        && fresh(r.value) && r.value.present && r.value.ops == [] && r.value.formats == formats
        && r.value.loaded == t[..|formats|] && r.value.extraFields == t[|formats|..]
        && r.value.fields == Unpacked(formats, t[..|formats|])
        && (r.value.Valid() <==> forall i :: 0 <= i < |formats| ==> |t[i]| == 4)
  {
    hide Replay, UnpackedField;
    var n := |formats|;
    var np := new Record(formats, primary);
    for i := 0 to n
      invariant np.Valid() && !np.present && fresh(np) && np.formats == formats && np.primary == primary
      invariant forall k :: 0 <= k < i ==> t[k] != [] && np.fields[k] == UnpackedField(formats[k], t[k])
    {
      var v, ok := UnpackField32(formats[i], t[i]);
      if !ok {
        return None;
      }
      var done := np.Set(i, v);
    }
    np.present := true;
    np.ops := [];
    if |t| > n {
      np.extraFields := t[n..];
    } else {
      np.extraFields := [];
      assert t[n..] == [];
    }
    np.loaded := t[..n];
    assert np.fields == Unpacked(formats, t[..n]);
    LoadedInStep(formats, t[..n]);
    return Some(np);
  }

  method UnpackField32(f: Format, s: Bytes) returns (v: int, ok: bool)
    ensures ok == (s != []) && InRange(f, v) && (ok ==> v == UnpackedField(f, s))
  {
    var r := new Reader(s);
    var w;
    w, ok := UnpackUint32(r, Default);
    ConvWord(f, w);
    v := Conv(f, w);
  }
}
