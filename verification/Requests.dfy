/** The requests of the box protocol and their decoders. */
module Requests {

  import opened Common
  import opened Wire
  import opened Octopus

  const NO_LIMIT: int := 0xffff_ffff

  datatype Op = Op(field: U32, code: Byte, value: Bytes)

  datatype Select = Select(ns: U32, index: U32, offset: U32, limit: U32, keys: seq<Tuple>)
  datatype Insert = Insert(ns: U32, ret: bool, mode: nat, tuple: Tuple)
  datatype Update = Update(ns: U32, key: Tuple, ops: seq<Op>)
  datatype Delete = Delete(ns: U32, key: Tuple)
  datatype Lua = Lua(name: Bytes, args: seq<Bytes>)

  // ---------------------------------------------------------------------------------------------
  // Flags and limits
  // ---------------------------------------------------------------------------------------------

  /** One shifted left by the mode in 32 bits; a shift by 32 or more leaves nothing. */
  function ModeBit(mode: Byte): nat { if 0 < mode < 32 then Pow(2, mode) else 0 }

  /** The lowest bit asks for the result, so it is free in every mode bit. */
  function Flags(ret: bool, mode: Byte): nat { ModeBit(mode) + if ret then 1 else 0 }

  /** The mode is what is left of the flags, cut to a byte: the bit and not its number. */
  function DecFlags(s: Bytes): Read<(bool, nat)> {
    var (v, rest) :- Dec32(s);
    Got((v % 2 == 1, (v - v % 2) % TWO_TO_THE_8), rest)
  }

  lemma {:induction false} PowGrows(a: nat, b: nat)
    requires a <= b
    ensures Pow(2, a) <= Pow(2, b) && Pow(2, b) % Pow(2, a) == 0
  {
    if a < b {
      PowGrows(a, b - 1);
      var q := Pow(2, b - 1) / Pow(2, a);
      assert Pow(2, b) == (2 * q) * Pow(2, a) + 0;
      DivIsUnique(Pow(2, b), Pow(2, a), 2 * q, 0);
    } else {
      DivIsUnique(Pow(2, b), Pow(2, a), 1, 0);
    }
  }

  lemma PowersOfTwo(m: nat)
    ensures m >= 1 ==> Pow(2, m) % 2 == 0
    ensures m >= 8 ==> Pow(2, m) % TWO_TO_THE_8 == 0
    ensures m < 8 ==> Pow(2, m) <= 0x80
    ensures m < 32 ==> Pow(2, m) <= 0x8000_0000
  {
    assert Pow(2, 1) == 2 && Pow(2, 4) == 16;
    assert Pow(2, 7) == 8 * Pow(2, 4) && Pow(2, 8) == 16 * Pow(2, 4);
    assert Pow(2, 15) == 256 * Pow(2, 7) by { assert Pow(2, 11) == 16 * Pow(2, 7); }
    assert Pow(2, 23) == 256 * Pow(2, 15) by { assert Pow(2, 19) == 16 * Pow(2, 15); }
    assert Pow(2, 31) == 256 * Pow(2, 23) by { assert Pow(2, 27) == 16 * Pow(2, 23); }
    if m < 8 { PowGrows(m, 7); } else { PowGrows(8, m); }
    if m < 32 { PowGrows(m, 31); }
    if m >= 1 { PowGrows(1, m); }
  }

  lemma FlagsSplit(ret: bool, mode: Byte)
    ensures Flags(ret, mode) < TWO_TO_THE_32 && Flags(ret, mode) % 2 == (if ret then 1 else 0)
    ensures Flags(ret, mode) - Flags(ret, mode) % 2 == ModeBit(mode)
  {
    hide Pow;
    PowersOfTwo(mode);
  }

  lemma ModeComesBack(mode: Byte)
    ensures ModeBit(mode) % TWO_TO_THE_8 == if 1 <= mode < 8 then Pow(2, mode) else 0
  {
    hide Pow;
    PowersOfTwo(mode);
  }

  /** The flag comes back; a mode from 1 to 7 comes back as its bit, any other as nothing. */
  lemma FlagsInverse(ret: bool, mode: Byte, t: Bytes)
    ensures DecFlags(Enc32(Flags(ret, mode)) + t) == Got((ret, if 1 <= mode < 8 then Pow(2, mode) else 0), t)
  {
    hide Enc32, Dec32, Flags, ModeBit, Pow;
    FlagsSplit(ret, mode);
    Inverse32(Flags(ret, mode), t);
    ModeComesBack(mode);
  }

  /** Zero is written as the largest number, and the largest number is read as zero. */
  function EncLimit(limit: U32): Bytes { Enc32(if limit == 0 then NO_LIMIT else limit) }

  function DecLimit(s: Bytes): Read<nat> {
    var (v, rest) :- Dec32(s);
    Got(if v == NO_LIMIT then 0 else v, rest)
  }

  lemma LimitInverse(limit: U32, t: Bytes)
    ensures DecLimit(EncLimit(limit) + t) == Got(limit, t) <==> limit != NO_LIMIT
    ensures limit == NO_LIMIT ==> DecLimit(EncLimit(limit) + t) == Got(0, t)
  {
    hide Enc32, Dec32;
    Inverse32(if limit == 0 then NO_LIMIT else limit, t);
  }

  // ---------------------------------------------------------------------------------------------
  // Select
  // ---------------------------------------------------------------------------------------------

  function EncSelect(q: Select): Bytes {
    Enc32(q.ns) + (Enc32(q.index) + (Enc32(q.offset) + (EncLimit(q.limit) + EncTuples(q.keys))))
  }

  function DecSelect(s: Bytes): Read<Select> {
    var (ns, s1) :- Dec32(s);
    var (index, s2) :- Dec32(s1);
    var (offset, s3) :- Dec32(s2);
    var (limit, s4) :- DecLimit(s3);
    var (keys, s5) :- DecTuples(s4);
    Got(Select(Cut(ns), Cut(index), Cut(offset), Cut(limit), keys), s5)
  }

  /** A select comes back exactly when its limit is not the number that stands for none. */
  lemma SelectInverse(q: Select, t: Bytes)
    requires TuplesFit(q.keys)
    ensures DecSelect(EncSelect(q) + t) == Got(q, t) <==> q.limit != NO_LIMIT
    ensures q.limit == NO_LIMIT ==> DecSelect(EncSelect(q) + t) == Got(q.(limit := 0), t)
  {
    hide Enc32, Dec32, EncTuples, DecTuples, EncLimit, DecLimit;
    var s5 := EncTuples(q.keys) + t;
    var s4 := EncLimit(q.limit) + s5;
    var s3 := Enc32(q.offset) + s4;
    var s2 := Enc32(q.index) + s3;
    assert EncSelect(q) + t == Enc32(q.ns) + s2;
    Inverse32(q.ns, s2);
    Inverse32(q.index, s3);
    Inverse32(q.offset, s4);
    LimitInverse(q.limit, s5);
    TuplesInverse(q.keys, t);
  }

  // ---------------------------------------------------------------------------------------------
  // Insert, update, delete, call
  // ---------------------------------------------------------------------------------------------

  /** An insert always asks for the result. */
  function EncInsert(ns: U32, mode: Byte, tuple: Tuple): Bytes {
    Enc32(ns) + (Enc32(Flags(true, mode)) + EncTuple(tuple))
  }

  function DecInsert(s: Bytes): Read<Insert> {
    var (ns, s1) :- Dec32(s);
    var (flags, s2) :- DecFlags(s1);
    var (tuple, s3) :- DecTuple(s2);
    Got(Insert(Cut(ns), flags.0, flags.1, tuple), s3)
  }

  lemma InsertInverse(ns: U32, mode: Byte, tuple: Tuple, t: Bytes)
    requires TupleFits(tuple)
    ensures DecInsert(EncInsert(ns, mode, tuple) + t)
         == Got(Insert(ns, true, if 1 <= mode < 8 then Pow(2, mode) else 0, tuple), t)
  {
    hide Enc32, Dec32, EncTuple, DecTuple, DecFlags, Flags, Pow;
    var s2 := EncTuple(tuple) + t;
    var s1 := Enc32(Flags(true, mode)) + s2;
    assert EncInsert(ns, mode, tuple) + t == Enc32(ns) + s1;
    Inverse32(ns, s1);
    FlagsInverse(true, mode, s2);
    TupleInverse(tuple, t);
  }

  function EncOp(o: Op): Bytes { Enc32(o.field) + ([o.code] + EncField(o.value)) }

  /** A missing code byte is not noticed when it is read: the code is zero then, and nothing is consumed. */
  function DecOp(s: Bytes): Read<Op> {
    var (field, s1) :- Dec32(s);
    var code, s2 := if s1 == [] then 0 else s1[0], if s1 == [] then s1 else s1[1..];
    var (value, s3) :- DecField(s2);
    Got(Op(Cut(field), code, value), s3)
  }

  /** Still nothing is accepted without its code byte: the value that should follow is missing too. */
  lemma MissingCodeFails(s: Bytes)
    requires Dec32(s).Got? && Dec32(s).rest == []
    ensures !DecOp(s).Got?
  {
  }

  lemma OpInverse(o: Op, t: Bytes)
    requires |o.value| < TWO_TO_THE_32
    ensures DecOp(EncOp(o) + t) == Got(o, t)
  {
    hide Enc32, Dec32, EncField, DecField;
    var s2 := EncField(o.value) + t;
    var s1 := [o.code] + s2;
    assert EncOp(o) + t == Enc32(o.field) + s1;
    assert s1[1..] == s2;
    Inverse32(o.field, s1);
    FieldInverse(o.value, t);
  }

  predicate OpsFit(ops: seq<Op>) {
    |ops| < TWO_TO_THE_32 && forall o :: o in ops ==> |o.value| < TWO_TO_THE_32
  }

  function EncOps(ops: seq<Op>): Bytes { EncCounted(EncOp, ops) }
  function DecOps(s: Bytes): Read<seq<Op>> { DecCounted(DecOp, s) }

  lemma OpsInverse(ops: seq<Op>, t: Bytes)
    requires OpsFit(ops)
    ensures DecOps(EncOps(ops) + t) == Got(ops, t)
  {
    forall o | o in ops ensures Inverse(EncOp, DecOp, o, |EncMany(EncOp, ops) + t| + 1) {
      forall r: Bytes | |EncOp(o) + r| < |EncMany(EncOp, ops) + t| + 1 ensures DecOp(EncOp(o) + r) == Got(o, r) {
        OpInverse(o, r);
      }
    }
    CountedInverse(EncOp, DecOp, ops, t);
  }

  /** Without operations not even their number is written. */
  function EncUpdate(u: Update): Bytes {
    Enc32(u.ns) + (Enc32(Flags(true, 0)) + (EncTuple(u.key) + if u.ops == [] then [] else EncOps(u.ops)))
  }

  function DecUpdate(s: Bytes): Read<Update> {
    var (ns, s1) :- Dec32(s);
    var (flags, s2) :- DecFlags(s1);
    var (key, s3) :- DecTuple(s2);
    if s3 == [] then Got(Update(Cut(ns), key, []), [])
    else
      var (ops, s4) :- DecOps(s3);
      Got(Update(Cut(ns), key, ops), s4)
  }

  lemma UpdateInverse(u: Update)
    requires TupleFits(u.key) && OpsFit(u.ops)
    ensures DecUpdate(EncUpdate(u)) == Got(u, [])
  {
    hide Dec32, EncTuple, DecTuple, DecFlags, Flags, EncOps, DecOps, EncUint, EncMany;
    var s3 := if u.ops == [] then [] else EncOps(u.ops);
    var s2 := EncTuple(u.key) + s3;
    var s1 := Enc32(Flags(true, 0)) + s2;
    Inverse32(u.ns, s1);
    FlagsInverse(true, 0, s2);
    TupleInverse(u.key, s3);
    OpsInverse(u.ops, []);
    assert EncOps(u.ops) + [] == EncOps(u.ops);
    CountTakesRoom(u.ops);
  }

  lemma CountTakesRoom(ops: seq<Op>)
    ensures EncOps(ops) != []
  {
    assert |Enc32(|ops|)| == 4;
  }

  function EncDelete(d: Delete): Bytes { Enc32(d.ns) + (Enc32(Flags(true, 0)) + EncTuple(d.key)) }

  function DecDelete(s: Bytes): Read<Delete> {
    var (ns, s1) :- Dec32(s);
    var (flags, s2) :- DecFlags(s1);
    var (key, s3) :- DecTuple(s2);
    Got(Delete(Cut(ns), key), s3)
  }

  lemma DeleteInverse(d: Delete, t: Bytes)
    requires TupleFits(d.key)
    ensures DecDelete(EncDelete(d) + t) == Got(d, t)
  {
    hide Enc32, Dec32, EncTuple, DecTuple, DecFlags, Flags;
    var s2 := EncTuple(d.key) + t;
    var s1 := Enc32(Flags(true, 0)) + s2;
    assert EncDelete(d) + t == Enc32(d.ns) + s1;
    Inverse32(d.ns, s1);
    FlagsInverse(true, 0, s2);
    TupleInverse(d.key, t);
  }

  /** A call starts with a zero word, and nothing else is taken for a call. */
  function EncLua(l: Lua): Bytes { Enc32(0) + (EncField(l.name) + EncTuple(l.args)) }

  function DecLua(s: Bytes): Read<Lua> {
    var (v, s1) :- Dec32(s);
    if v != 0 then Failed
    else
      var (name, s2) :- DecField(s1);
      var (args, s3) :- DecTuple(s2);
      Got(Lua(name, args), s3)
  }

  lemma LuaInverse(l: Lua, t: Bytes)
    requires |l.name| < TWO_TO_THE_32 && TupleFits(l.args)
    ensures DecLua(EncLua(l) + t) == Got(l, t)
  {
    hide Enc32, Dec32, EncTuple, DecTuple, EncField, DecField;
    var s2 := EncTuple(l.args) + t;
    var s1 := EncField(l.name) + s2;
    assert EncLua(l) + t == Enc32(0) + s1;
    Inverse32(0, s1);
    FieldInverse(l.name, s2);
    TupleInverse(l.args, t);
  }

  // ---------------------------------------------------------------------------------------------
  // The programs
  // ---------------------------------------------------------------------------------------------

  /** The capacity asked for ahead is the size of what is then written, in 32-bit arithmetic. */
  method PackSelect(q: Select) returns (w: Bytes, capacity: U32)
    ensures w == EncSelect(q) && capacity == |w| % TWO_TO_THE_32
  {
    hide Enc32, EncTuples;
    var keysLen := PackedTuplesLen(q.keys);
    capacity := (4 + 4 + 4 + 4 + keysLen) % TWO_TO_THE_32;
    w := PackCount([], q.ns);
    w := PackCount(w, q.index);
    w := PackCount(w, q.offset);
    w := PackCount(w, if q.limit == 0 then NO_LIMIT else q.limit);
    w := PackTuples(w, q.keys);
    assert w == EncSelect(q);
    AddWraps(16, |EncTuples(q.keys)|);
    CountLen(q.ns);
    CountLen(q.index);
    CountLen(q.offset);
    CountLen(if q.limit == 0 then NO_LIMIT else q.limit);
  }

  lemma CountLen(v: nat)
    ensures |Enc32(v)| == 4
  {
  }

  method PackInsertReplace(ns: U32, mode: Byte, tuple: Tuple) returns (w: Bytes, capacity: U32)
    ensures w == EncInsert(ns, mode, tuple) && capacity == (|w| + 4) % TWO_TO_THE_32
  {
    hide Enc32, EncTuple;
    var tupleLen := PackedTupleLen(tuple);
    capacity := (4 + 4 + 4 + tupleLen) % TWO_TO_THE_32;
    w := PackCount([], ns);
    w := PackCount(w, Flags(true, mode));
    w := PackTuple(w, tuple);
    assert w == EncInsert(ns, mode, tuple);
    AddWraps(12, |EncTuple(tuple)|);
    CountLen(ns);
    CountLen(Flags(true, mode));
  }

  lemma OpLenAgrees(o: Op)
    ensures (4 + 1 + ByteLen(|o.value| % TWO_TO_THE_32)) % TWO_TO_THE_32 == |EncOp(o)| % TWO_TO_THE_32
  {
    hide EncField, ByteLen, Enc32;
    ByteLenAgrees(o.value);
    CountLen(o.field);
    AddWraps(5, |EncField(o.value)|);
  }

  method PackedUpdateOpsLen(ops: seq<Op>) returns (n: U32)
    ensures n == |EncOps(ops)| % TWO_TO_THE_32
  {
    hide EncOp, ByteLen;
    n := 4;
    for i := 0 to |ops|
      invariant n == (4 + |EncMany(EncOp, ops[..i])|) % TWO_TO_THE_32
    {
      assert ops[..i + 1][..i] == ops[..i];
      OpLenAgrees(ops[i]);
      var k: U32 := (4 + 1 + ByteLen(|ops[i].value| % TWO_TO_THE_32)) % TWO_TO_THE_32;
      AddWraps(4 + |EncMany(EncOp, ops[..i])|, |EncOp(ops[i])|);
      n := (n + k) % TWO_TO_THE_32;
    }
    assert ops[..|ops|] == ops;
  }

  method PackOps(w: Bytes, ops: seq<Op>) returns (r: Bytes)
    ensures r == w + EncOps(ops)
  {
    hide Enc32, EncField;
    r := PackCount(w, |ops|);
    for i := 0 to |ops|
      invariant r == w + (Enc32(|ops|) + EncMany(EncOp, ops[..i]))
    {
      assert ops[..i + 1][..i] == ops[..i];
      r := PackCount(r, ops[i].field);
      r := r + [ops[i].code];
      r := PackField(r, ops[i].value);
    }
    assert ops[..|ops|] == ops;
  }

  method PackUpdate(u: Update) returns (w: Bytes, capacity: U32)
    ensures w == EncUpdate(u)
    ensures capacity == (|w| + if u.ops == [] then 4 else 0) % TWO_TO_THE_32
  {
    hide Enc32, EncTuple, EncMany, Flags;
    var keyLen := PackedTupleLen(u.key);
    var opsLen := PackedUpdateOpsLen(u.ops);
    capacity := (4 + 4 + keyLen + opsLen) % TWO_TO_THE_32;
    w := PackCount([], u.ns);
    FlagsFit();
    w := PackCount(w, Flags(true, 0));
    w := PackTuple(w, u.key);
    if |u.ops| != 0 {
      w := PackOps(w, u.ops);
    }
    assert w == EncUpdate(u);
    UpdateLen(u);
  }

  lemma UpdateLen(u: Update)
    ensures (4 + 4 + |EncTuple(u.key)| % TWO_TO_THE_32 + |EncOps(u.ops)| % TWO_TO_THE_32) % TWO_TO_THE_32
         == (|EncUpdate(u)| + if u.ops == [] then 4 else 0) % TWO_TO_THE_32
  {
    hide Enc32, EncTuple, EncOps, Flags;
    SumWraps(|EncTuple(u.key)|, |EncOps(u.ops)|);
    CountLen(u.ns);
    CountLen(Flags(true, 0));
    NoOpsLen();
  }

  lemma SumWraps(a: int, b: int)
    ensures (4 + 4 + a % TWO_TO_THE_32 + b % TWO_TO_THE_32) % TWO_TO_THE_32 == (8 + (a + b)) % TWO_TO_THE_32
  {
  }

  lemma FlagsFit()
    ensures Flags(true, 0) == 1
  {
  }

  lemma NoOpsLen()
    ensures |EncOps([])| == 4
  {
  }

  method PackDelete(d: Delete) returns (w: Bytes, capacity: U32)
    ensures w == EncDelete(d) && capacity == |w| % TWO_TO_THE_32
  {
    hide Enc32, EncTuple, Flags;
    var keyLen := PackedTupleLen(d.key);
    capacity := (4 + 4 + keyLen) % TWO_TO_THE_32;
    w := PackCount([], d.ns);
    w := PackCount(w, Flags(true, 0));
    w := PackTuple(w, d.key);
    assert w == EncDelete(d);
    AddWraps(8, |EncTuple(d.key)|);
    CountLen(d.ns);
    CountLen(Flags(true, 0));
  }

  method PackLua(l: Lua) returns (w: Bytes)
    ensures w == EncLua(l)
  {
    hide Enc32, EncField, EncMany;
    w := PackCount([], 0);
    w := PackField(w, l.name);
    w := PackTuple(w, l.args);
  }

  method UnpackFlags(r: Reader) returns (flags: (bool, nat), ok: bool)
    requires r.Valid()
    modifies r
    ensures r.Valid() && Agrees(DecFlags(old(r.Rest())), ok, flags, r.Rest())
  {
    hide DecUint;
    var v, got := UnpackUint32(r, Default);
    if !got {
      return (false, 0), false;
    }
    if v % 2 == 1 {
      return (true, (v - 1) % TWO_TO_THE_8), true;
    }
    return (false, v % TWO_TO_THE_8), true;
  }

  method UnpackLimit(r: Reader) returns (limit: nat, ok: bool)
    requires r.Valid()
    modifies r
    ensures r.Valid() && Agrees(DecLimit(old(r.Rest())), ok, limit, r.Rest())
  {
    hide DecUint;
    limit, ok := UnpackUint32(r, Default);
    if ok && limit == NO_LIMIT {
      limit := 0;
    }
  }

  method UnpackSelect(data: Bytes) returns (q: Select, ok: bool)
    ensures ok == DecSelect(data).Got? && (ok ==> q == DecSelect(data).value)
  {
    hide DecSelect;
    var r := new Reader(data);
    q, ok := ReadSelect(r);
  }

  method ReadSelect(r: Reader) returns (q: Select, ok: bool)
    requires r.Valid()
    modifies r
    ensures r.Valid() && Agrees(DecSelect(old(r.Rest())), ok, q, r.Rest())
  {
    hide DecUint, DecLimit, DecTuples;
    q, ok := Select(0, 0, 0, 0, []), false;
    var ns, okNs := UnpackUint32(r, Default);
    if !okNs { return; }
    var index, okIndex := UnpackUint32(r, Default);
    if !okIndex { return; }
    var offset, okOffset := UnpackUint32(r, Default);
    if !okOffset { return; }
    var limit, okLimit := UnpackLimit(r);
    if !okLimit { return; }
    var keys, okKeys := UnpackTuples(r);
    if !okKeys { return; }
    return Select(Cut(ns), Cut(index), Cut(offset), Cut(limit), keys), true;
  }

  method UnpackInsertReplace(data: Bytes) returns (i: Insert, ok: bool)
    ensures ok == DecInsert(data).Got? && (ok ==> i == DecInsert(data).value)
  {
    hide DecInsert;
    var r := new Reader(data);
    i, ok := ReadInsert(r);
  }

  method ReadInsert(r: Reader) returns (i: Insert, ok: bool)
    requires r.Valid()
    modifies r
    ensures r.Valid() && Agrees(DecInsert(old(r.Rest())), ok, i, r.Rest())
  {
    hide DecUint, DecFlags, DecTuple;
    i, ok := Insert(0, false, 0, []), false;
    var ns, okNs := UnpackUint32(r, Default);
    if !okNs { return; }
    var flags, okFlags := UnpackFlags(r);
    if !okFlags { return; }
    var tuple, okTuple := UnpackTuple(r);
    if !okTuple { return; }
    return Insert(Cut(ns), flags.0, flags.1, tuple), true;
  }

  /** The error of the code byte is not the one the program looks at. */
  method UnpackOp(r: Reader) returns (o: Op, ok: bool)
    requires r.Valid()
    modifies r
    ensures r.Valid() && Agrees(DecOp(old(r.Rest())), ok, o, r.Rest())
  {
    hide DecUint, DecField;
    o, ok := Op(0, 0, []), false;
    var field, okField := UnpackUint32(r, Default);
    if !okField { return; }
    var code, okCode := r.ReadByte();
    var value, okValue := UnpackField(r);
    if !okValue { return; }
    return Op(Cut(field), code, value), true;
  }

  method UnpackUpdate(data: Bytes) returns (u: Update, ok: bool)
    ensures ok == DecUpdate(data).Got? && (ok ==> u == DecUpdate(data).value)
  {
    hide DecUpdate;
    var r := new Reader(data);
    u, ok := ReadUpdate(r);
  }

  method ReadUpdate(r: Reader) returns (u: Update, ok: bool)
    requires r.Valid()
    modifies r
    ensures r.Valid() && Agrees(DecUpdate(old(r.Rest())), ok, u, r.Rest())
  {
    hide DecUint, DecFlags, DecTuple, DecOp;
    u, ok := Update(0, [], []), false;
    var ns, okNs := UnpackUint32(r, Default);
    if !okNs { return; }
    var flags, okFlags := UnpackFlags(r);
    if !okFlags { return; }
    var key, okKey := UnpackTuple(r);
    if !okKey { return; }
    var ops := [];
    if r.Len() != 0 {
      var okOps;
      ops, okOps := UnpackOps(r);
      if !okOps { return; }
    }
    return Update(Cut(ns), key, ops), true;
  }

  method UnpackOps(r: Reader) returns (ops: seq<Op>, ok: bool)
    requires r.Valid()
    modifies r
    ensures r.Valid() && Agrees(DecOps(old(r.Rest())), ok, ops, r.Rest())
  {
    hide DecOp;
    var n, got := UnpackUint32(r, Default);
    if !got {
      return [], false;
    }
    ops := [];
    ghost var first := r.Rest();
    AfterJoins(ops, ops, DecMany(DecOp, first, n));
    for i := 0 to n
      invariant r.Valid()
      invariant DecMany(DecOp, first, n) == After(ops, DecMany(DecOp, r.Rest(), n - i))
    {
      var o, gotOp := UnpackOp(r);
      if !gotOp {
        return [], false;
      }
      AfterJoins(ops, [o], DecMany(DecOp, r.Rest(), n - i - 1));
      ops := ops + [o];
    }
    AfterJoins(ops, [], Failed);
    return ops, true;
  }

  method UnpackDelete(data: Bytes) returns (d: Delete, ok: bool)
    ensures ok == DecDelete(data).Got? && (ok ==> d == DecDelete(data).value)
  {
    hide DecDelete;
    var r := new Reader(data);
    d, ok := ReadDelete(r);
  }

  method ReadDelete(r: Reader) returns (d: Delete, ok: bool)
    requires r.Valid()
    modifies r
    ensures r.Valid() && Agrees(DecDelete(old(r.Rest())), ok, d, r.Rest())
  {
    hide DecUint, DecFlags, DecTuple;
    d, ok := Delete(0, []), false;
    var ns, okNs := UnpackUint32(r, Default);
    if !okNs { return; }
    var flags, okFlags := UnpackFlags(r);
    if !okFlags { return; }
    var key, okKey := UnpackTuple(r);
    if !okKey { return; }
    return Delete(Cut(ns), key), true;
  }

  method UnpackLua(data: Bytes) returns (l: Lua, ok: bool)
    ensures ok == DecLua(data).Got? && (ok ==> l == DecLua(data).value)
  {
    hide DecLua;
    var r := new Reader(data);
    l, ok := ReadLua(r);
  }

  method ReadLua(r: Reader) returns (l: Lua, ok: bool)
    requires r.Valid()
    modifies r
    ensures r.Valid() && Agrees(DecLua(old(r.Rest())), ok, l, r.Rest())
  {
    hide DecUint, DecField, DecTuple;
    l, ok := Lua([], []), false;
    var v, okV := UnpackUint32(r, Default);
    if !okV || v != 0 { return; }
    var name, okName := UnpackField(r);
    if !okName { return; }
    var args, okArgs := UnpackTuple(r);
    if !okArgs { return; }
    return Lua(name, args), true;
  }
}
