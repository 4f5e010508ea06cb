/** The bytes on the wire one by one: digits and their places, fixed words, and the known encodings. */
module Layouts {
  import opened Common
  import opened Wire
  import opened Octopus
  import opened Requests
  import opened Framing
  import Response

  // ---------------------------------------------------------------------------------------------
  // Digits
  // ---------------------------------------------------------------------------------------------

  lemma DivProduct(v: nat, a: nat, b: nat)
    requires a > 0 && b > 0
    ensures a * b > 0 && v / (a * b) == v / a / b
  {
    var u, s := v / a, v % a;
    var q, r := u / b, u % b;
    assert v == u * a + s;
    assert u == q * b + r;
    DivDigits(v, a, b, q, r, s);
  }

  lemma DivDigits(v: nat, a: nat, b: nat, q: nat, r: nat, s: nat)
    requires a > 0 && b > 0 && r < b && s < a && v == (q * b + r) * a + s
    ensures a * b > 0 && v / (a * b) == q
  {
    TwoDigits(q, r, s, a, b);
    Digit(v, a * b, q, r * a + s);
  }

  lemma Digit(v: nat, m: nat, q: nat, r: nat)
    requires r < m && v == q * m + r
    ensures v / m == q
  {
    DivIsUnique(v, m, q, r);
  }

  lemma TwoDigits(q: nat, r: nat, s: nat, a: nat, b: nat)
    requires r < b && s < a
    ensures (q * b + r) * a + s == q * (a * b) + (r * a + s) && r * a + s < a * b
  {
    assert r * a <= (b - 1) * a;
  }

  /** Byte `i` of a fixed-width number is its `i`-th digit to the base 256. */
  lemma {:induction false} LeDigits(v: nat, n: nat, i: nat)
    requires i < n
    ensures Le(v, n)[i] == v / Pow(256, i) % 256
  {
    if i > 0 {
      LeDigits(v / 256, n - 1, i - 1);
      DivProduct(v, 256, Pow(256, i - 1));
    }
  }

  lemma {:induction false} HighDigits(u: nat, k: nat)
    requires k < |High(u)|
    ensures High(u)[k] == 128 + u / Pow(128, |High(u)| - 1 - k) % 128
  {
    var n := |High(u)|;
    assert High(u) == High(u / 128) + [128 + u % 128];
    if k < n - 1 {
      hide High;
      HighDigits(u / 128, k);
      DivProduct(u, 128, Pow(128, n - 2 - k));
    }
  }

  /** The base-128 form has the highest digit first, and every byte but the last is marked as continued. */
  lemma BerDigits(v: nat, k: nat)
    requires k < |Ber128(v)|
    ensures var last := |Ber128(v)| - 1;
      Ber128(v)[k] == v / Pow(128, last - k) % 128 + if k < last then 128 else 0
  {
    var last := |Ber128(v)| - 1;
    if k < last {
      HighDigits(v / 128, k);
      DivProduct(v, 128, Pow(128, last - 1 - k));
    }
  }

  function Word4(v: U32): Bytes { [v % 256, v / 0x100 % 256, v / 0x1_0000 % 256, v / 0x100_0000] }

  lemma Le4(v: U32)
    ensures Le(v, 4) == Word4(v)
  {
    assert Le(v / 0x100_0000, 1) == [v / 0x100_0000];
    assert Le(v / 0x1_0000, 2) == [v / 0x1_0000 % 256] + Le(v / 0x100_0000, 1);
    assert Le(v / 0x100, 3) == [v / 0x100 % 256] + Le(v / 0x1_0000, 2);
  }

  lemma LargestWord()
    ensures Word4(0xffff_ffff) == [0xff, 0xff, 0xff, 0xff]
  {
  }

  lemma OneWord()
    ensures Word4(1) == [1, 0, 0, 0]
  {
  }

  lemma Enc32Is(v: U32)
    ensures Enc32(v) == Word4(v)
  {
    Le4(v);
  }

  // ---------------------------------------------------------------------------------------------
  // Fields and requests
  // ---------------------------------------------------------------------------------------------

  lemma ShortField(f: Bytes)
    requires |f| < 128
    ensures EncField(f) == [|f|] + f
  {
    assert High(0) == [];
  }

  /** The fields one after the other. */
  function Joined(t: Tuple): Bytes {
    if t == [] then [] else EncField(t[0]) + Joined(t[1..])
  }

  lemma {:induction false} ManyIsJoined(t: Tuple)
    ensures EncMany(EncField, t) == Joined(t)
  {
    hide EncField;
    if t != [] {
      EncManyHead(EncField, t);
      ManyIsJoined(t[1..]);
    }
  }

  lemma TupleLayout(t: Tuple)
    requires |t| < TWO_TO_THE_32
    ensures EncTuple(t) == Word4(|t|) + Joined(t)
  {
    hide EncMany;
    Enc32Is(|t|);
    ManyIsJoined(t);
  }

  /** An operation is its field, one byte of code, and its value. */
  lemma OpLayout(o: Op)
    ensures EncOp(o) == Word4(o.field) + [o.code] + EncField(o.value)
  {
    Enc32Is(o.field);
  }

  /** Updates and deletes ask for the result in the word after the namespace, which no decoder hands on. */
  lemma UpdateLayout(u: Update)
    requires |u.key| < TWO_TO_THE_32 && |u.ops| < TWO_TO_THE_32
    ensures EncUpdate(u) == Word4(u.ns) + [1, 0, 0, 0] + Word4(|u.key|) + Joined(u.key)
      + if u.ops == [] then [] else Word4(|u.ops|) + EncMany(EncOp, u.ops)
  {
    hide EncTuple, EncMany, Enc32, EncField, Joined, Word4, Pow;
    Enc32Is(u.ns);
    Enc32Is(1);
    OneWord();
    Enc32Is(|u.ops|);
    TupleLayout(u.key);
  }

  lemma DeleteLayout(d: Delete)
    requires |d.key| < TWO_TO_THE_32
    ensures EncDelete(d) == Word4(d.ns) + [1, 0, 0, 0] + Word4(|d.key|) + Joined(d.key)
  {
    hide EncTuple, EncMany, Enc32, EncField, Joined, Word4, Pow;
    Enc32Is(d.ns);
    Enc32Is(1);
    OneWord();
    TupleLayout(d.key);
  }

  lemma LuaLayout(l: Lua)
    requires |l.args| < TWO_TO_THE_32
    ensures EncLua(l) == [0, 0, 0, 0] + EncField(l.name) + Word4(|l.args|) + Joined(l.args)
  {
    hide EncTuple, EncMany, Enc32, EncField;
    Enc32Is(0);
    TupleLayout(l.args);
  }

  /** A select writes the largest number for no limit. */
  lemma SelectLayout(q: Select)
    requires |q.keys| < TWO_TO_THE_32
    ensures EncSelect(q) == Word4(q.ns) + Word4(q.index) + Word4(q.offset)
      + (if q.limit == 0 then [0xff, 0xff, 0xff, 0xff] else Word4(q.limit))
      + Word4(|q.keys|) + EncMany(EncTuple, q.keys)
  {
    hide EncTuple, EncMany, Enc32, EncField, Joined, Word4, Pow;
    Enc32Is(q.ns);
    Enc32Is(q.index);
    Enc32Is(q.offset);
    Enc32Is(if q.limit == 0 then 0xffff_ffff else q.limit);
    LargestWord();
    Enc32Is(|q.keys|);
  }

  /** A response starts with its return code, zero for success. */
  lemma ResponseLayout(data: seq<Tuple>)
    requires data != [] && |data| < TWO_TO_THE_32
    ensures Response.EncOk([]) == [0, 0, 0, 0]
    ensures Response.EncOk(data) ==
      [0, 0, 0, 0] + Word4(|data|) + EncMany(Response.EncSized, Response.Counted(data))
  {
    hide EncMany, Enc32;
    Enc32Is(0);
    Enc32Is(|data|);
  }

  /** An error has a count of fields, not a length, between its code and its text. */
  lemma ErrorLayout(code: U32, data: seq<Tuple>)
    requires data != [] && data[0] != [] && |data[0]| < TWO_TO_THE_32
    ensures Response.EncError(code, data) == Word4(code) + Word4(|data[0]|) + data[0][0]
  {
    hide Enc32;
    Enc32Is(code);
    Enc32Is(|data[0]|);
  }

  lemma SizedLayout(t: Tuple)
    requires |EncTuple(t)| < TWO_TO_THE_32
    ensures Response.EncSized(Response.TupleData(|t|, t)) == Word4(|EncTuple(t)|) + EncTuple(t)
  {
    hide EncTuple;
    Enc32Is(|EncTuple(t)|);
  }

  /** The flags of the three insert modes: replace or insert, insert only, replace only. */
  lemma InsertFlags()
    ensures Flags(true, 0) == 1 && Flags(true, 1) == 3 && Flags(true, 2) == 5 && Flags(false, 0) == 0
  {
    assert Pow(2, 1) == 2 && Pow(2, 2) == 4;
  }

  // ---------------------------------------------------------------------------------------------
  // The encodings the tests of the program expect
  // ---------------------------------------------------------------------------------------------

  lemma NumbersExpected()
    ensures Le(258, 2) == [2, 1] && Le(258, 4) == [2, 1, 0, 0] && Le(258, 8) == [2, 1, 0, 0, 0, 0, 0, 0]
    ensures EncBytes([0x20, 0x20, 0x20], Default) == [3, 0, 0, 0, 0x20, 0x20, 0x20]
    ensures EncBytes([0x20, 0x20], Ber) == [2, 0x20, 0x20]
  {
    Le4(258);
    Le4(0);
    Le4(3);
    ShortField([0x20, 0x20]);
    assert Le(258, 8) == [2] + Le(1, 7) && Le(1, 7) == [1] + Le(0, 6);
    assert Le(0, 6) == [0] + Le(0, 5) && Le(0, 5) == [0] + Le(0, 4);
  }

  lemma HighStep(u: nat, d: nat)
    requires u > 0 && d < 128
    ensures High(128 * u + d) == High(u) + [128 + d]
  {
  }

  lemma HighFirst(d: nat)
    requires 0 < d < 128
    ensures High(d) == [128 + d]
  {
    assert High(0) == [];
  }

  lemma BerExpected()
    ensures Ber128(5) == [5] && Ber128(0) == [0] && Ber128(128) == [0x81, 0] && Ber128(258) == [0x82, 2]
    ensures Ber128(0xffff_ffff) == [0x8f, 0xff, 0xff, 0xff, 0x7f]
  {
    hide High;
    assert High(0) == [] by { BerZero(); }
    HighFirst(1);
    HighFirst(2);
    HighFirst(0xf);
    HighStep(0xf, 0x7f);
    HighStep(0x7ff, 0x7f);
    HighStep(0x3_ffff, 0x7f);
  }

  lemma BerZero()
    ensures High(0) == []
  {
  }

  lemma BerLongest()
    ensures Ber128(0xffff_ffff_ffff_ffff) == [0x81, 0xff, 0xff, 0xff, 0xff, 0xff, 0xff, 0xff, 0xff, 0x7f]
  {
    hide High;
    HighFirst(1);
    HighStep(1, 0x7f);
    HighStep(0xff, 0x7f);
    HighStep(0x7fff, 0x7f);
    HighStep(0x3f_ffff, 0x7f);
    HighStep(0x1fff_ffff, 0x7f);
    HighStep(0xf_ffff_ffff, 0x7f);
    HighStep(0x7ff_ffff_ffff, 0x7f);
    HighStep(0x3_ffff_ffff_ffff, 0x7f);
  }

  lemma PacketExpected()
    ensures Marshal(Packet(1, 0, 3, [])) == [1, 0, 0, 0, 0, 0, 0, 0, 3, 0, 0, 0]
  {
    Le4(1);
    Le4(0);
    Le4(3);
  }

  lemma PairLayout(a: Bytes, b: Bytes)
    requires |a| < 128 && |b| < 128
    ensures EncTuple([a, b]) == [2, 0, 0, 0, |a|] + a + [|b|] + b
  {
    hide EncField;
    TupleLayout([a, b]);
    ShortField(a);
    ShortField(b);
    assert [a, b][1..] == [b] && [b][1..] == [];
    assert Joined([b]) == EncField(b) + Joined([]);
  }

  lemma InsertExpected()
    ensures var value := [0xa, 0, 0, 0];
      && EncInsert(2, 1, [value, []]) == [2, 0, 0, 0] + [3, 0, 0, 0] + [2, 0, 0, 0] + [4, 0xa, 0, 0, 0] + [0]
      && EncInsert(2, 2, [value, []]) == [2, 0, 0, 0] + [5, 0, 0, 0] + [2, 0, 0, 0] + [4, 0xa, 0, 0, 0] + [0]
      && EncInsert(2, 0, [value, []]) == [2, 0, 0, 0] + [1, 0, 0, 0] + [2, 0, 0, 0] + [4, 0xa, 0, 0, 0] + [0]
  {
    hide EncTuple, Enc32;
    InsertFlags();
    Enc32Is(2);
    Enc32Is(3);
    Enc32Is(5);
    Enc32Is(1);
    PairLayout([0xa, 0, 0, 0], []);
  }

  lemma SelectExpected()
    ensures EncSelect(Select(2, 1, 0, 10, [[[97, 97, 97], [0x10, 0]], [[98, 98, 98], [0x20, 0]]])) ==
      [2, 0, 0, 0] + [1, 0, 0, 0] + [0, 0, 0, 0] + [10, 0, 0, 0] + [2, 0, 0, 0]
      + [2, 0, 0, 0, 3, 97, 97, 97, 2, 0x10, 0] + [2, 0, 0, 0, 3, 98, 98, 98, 2, 0x20, 0]
  {
    hide EncTuple, Enc32, EncMany;
    Enc32Is(2);
    Enc32Is(1);
    Enc32Is(0);
    Enc32Is(10);
    PairLayout([97, 97, 97], [0x10, 0]);
    PairLayout([98, 98, 98], [0x20, 0]);
    TwoTuples([[97, 97, 97], [0x10, 0]], [[98, 98, 98], [0x20, 0]]);
  }

  lemma TwoTuples(t: Tuple, u: Tuple)
    ensures EncMany(EncTuple, [t, u]) == EncTuple(t) + EncTuple(u)
  {
    hide EncTuple;
    assert [t, u][..1] == [t] && [t][..0] == [];
    assert EncMany(EncTuple, [t]) == EncMany(EncTuple, []) + EncTuple(t);
  }

  // ---------------------------------------------------------------------------------------------
  // What is accepted
  // ---------------------------------------------------------------------------------------------

  lemma {:induction false} BerAccepts(s: Bytes, max: nat, acc: nat)
    ensures FromBer(s, max, acc).Got? <==> exists k :: 0 <= k < max && k < |s| && s[k] < 128
    decreases max
  {
    hide Shift;
    if max > 0 && s != [] && s[0] >= 128 {
      BerAccepts(s[1..], max - 1, Shift(acc, s[0]));
      if k :| 0 <= k < max - 1 && k < |s[1..]| && s[1..][k] < 128 {
        assert s[k + 1] < 128;
      }
      if k :| 0 <= k < max && k < |s| && s[k] < 128 {
        assert s[1..][k - 1] < 128;
      }
    }
  }

  /** A base-128 number must end within 3, 5 or 10 bytes; a fixed-width one is refused only when nothing is left. */
  lemma NumbersAccepted(s: Bytes)
    ensures DecUint(s, 16, Ber).Got? <==> exists k :: 0 <= k < 3 && k < |s| && s[k] < 128
    ensures DecUint(s, 32, Ber).Got? <==> exists k :: 0 <= k < 5 && k < |s| && s[k] < 128
    ensures DecUint(s, 64, Ber).Got? <==> exists k :: 0 <= k < 10 && k < |s| && s[k] < 128
    ensures DecUint(s, 16, Default).Got? <==> s != []
    ensures DecUint(s, 32, Default).Got? <==> s != []
    ensures DecUint(s, 64, Default).Got? <==> s != []
  {
    hide FromBer, Pow;
    BerAccepts(s, 3, 0);
    BerAccepts(s, 5, 0);
    BerAccepts(s, 10, 0);
  }

  /** A base-128 number of up to five bytes that is too large for 32 bits is cut to them. */
  lemma BerIsCut(v: nat, t: Bytes)
    requires v < Pow(128, 5)
    ensures DecUint(Ber128(v) + t, 32, Ber) == Got(v % TWO_TO_THE_32, t)
  {
    hide Ber128;
    Powers();
    BerLen(v, 5);
    BerDecodes(v, t, 5);
  }
}
