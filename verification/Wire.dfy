/** Integers and byte strings on the wire: fixed width, or base 128 with continuation bits. */
module Wire {

  import opened Common

  type Bytes = seq<Byte>

  datatype Mode = Default | Ber

  /**
   * What a decoder makes of the bytes that are left: a value and what then remains, an error, or an index
   * past the end of a slice, which ends the program.
   */
  datatype Read<+T> = Got(value: T, rest: Bytes) | Failed | Beyond {
    predicate IsFailure() { !Got? }

    function PropagateFailure<U>(): Read<U>
      requires IsFailure()
    {
      if Beyond? then Beyond else Failed
    }

    function Extract(): (T, Bytes)
      requires !IsFailure()
    {
      (value, rest)
    }
  }

  // ---------------------------------------------------------------------------------------------
  // Fixed width
  // ---------------------------------------------------------------------------------------------

  function Pow(b: nat, n: nat): (p: nat)
    ensures b > 0 ==> p > 0
  {
    if n == 0 then 1 else b * Pow(b, n - 1)
  }

  /** The `n` low bytes of `v`, lowest first. */
  function Le(v: nat, n: nat): (s: Bytes)
    ensures |s| == n
  {
    if n == 0 then [] else [v % 256] + Le(v / 256, n - 1)
  }

  function FromLe(s: Bytes): nat {
    if s == [] then 0 else s[0] + 256 * FromLe(s[1..])
  }

  lemma {:induction false} LeInverse(v: nat, n: nat)
    requires v < Pow(256, n)
    ensures FromLe(Le(v, n)) == v
  {
    if n > 0 {
      LeInverse(v / 256, n - 1);
      assert Le(v, n)[1..] == Le(v / 256, n - 1);
    }
  }

  /** Bytes are the encoding of the number they decode to. */
  lemma {:induction false} FromLeInverse(s: Bytes)
    ensures Le(FromLe(s), |s|) == s
  {
    if s != [] {
      FromLeInverse(s[1..]);
      assert (s[0] + 256 * FromLe(s[1..])) / 256 == FromLe(s[1..]);
      assert s == [s[0]] + s[1..];
    }
  }

  lemma {:induction false} FromLeFits(s: Bytes)
    ensures FromLe(s) < Pow(256, |s|)
  {
    if s != [] {
      FromLeFits(s[1..]);
    }
  }

  // ---------------------------------------------------------------------------------------------
  // Base 128
  // ---------------------------------------------------------------------------------------------

  /** The base-128 digits of `u`, highest first, each marked as continued. */
  function High(u: nat): Bytes {
    if u == 0 then [] else High(u / 128) + [128 + u % 128]
  }

  function Ber128(v: nat): Bytes { High(v / 128) + [v % 128] }

  /** The accumulator is 64 bits wide and drops what a shift by seven moves out of it. */
  function Shift(acc: nat, b: Byte): nat { acc * 128 % TWO_TO_THE_64 + b % 128 }

  /** At most `max` bytes are looked at. */
  function FromBer(s: Bytes, max: nat, acc: nat): Read<nat>
    decreases max
  {
    if max == 0 || s == [] then Failed
    else
      var v := Shift(acc, s[0]);
      if s[0] < 128 then Got(v, s[1..]) else FromBer(s[1..], max - 1, v)
  }

  lemma ShiftRestores(u: nat)
    requires u < TWO_TO_THE_64
    ensures Shift(u / 128, 128 + u % 128) == u && Shift(u / 128, u % 128) == u
  {
    assert u / 128 * 128 <= u;
  }

  lemma {:induction false} HighDecodes(u: nat, t: Bytes, max: nat)
    requires u < TWO_TO_THE_64 && |High(u)| <= max
    ensures FromBer(High(u) + t, max, 0) == FromBer(t, max - |High(u)|, u)
  {
    hide Shift;
    if u == 0 {
      assert High(u) + t == t;
    } else {
      var d := [128 + u % 128];
      HighDecodes(u / 128, d + t, max);
      assert High(u) + t == High(u / 128) + (d + t);
      assert (d + t)[1..] == t;
      ShiftRestores(u);
    }
  }

  lemma BerDecodes(v: nat, t: Bytes, max: nat)
    requires v < TWO_TO_THE_64 && |Ber128(v)| <= max
    ensures FromBer(Ber128(v) + t, max, 0) == Got(v, t)
  {
    hide Shift, High;
    var d := [v % 128];
    HighDecodes(v / 128, d + t, max);
    assert Ber128(v) + t == High(v / 128) + (d + t);
    assert (d + t)[1..] == t;
    ShiftRestores(v);
  }

  lemma {:induction false} HighLen(u: nat, k: nat)
    ensures |High(u)| <= k <==> u < Pow(128, k)
  {
    if u > 0 && k > 0 {
      HighLen(u / 128, k - 1);
      assert u < 128 * Pow(128, k - 1) <==> u / 128 < Pow(128, k - 1);
    }
  }

  /** The encoding has at most `k` bytes exactly when the value has at most `k` digits. */
  lemma BerLen(v: nat, k: nat)
    requires k >= 1
    ensures |Ber128(v)| <= k <==> v < Pow(128, k)
  {
    HighLen(v / 128, k - 1);
    assert v < 128 * Pow(128, k - 1) <==> v / 128 < Pow(128, k - 1);
  }

  lemma Powers()
    ensures Pow(128, 0) == 1 && Pow(128, 1) == 0x80 && Pow(128, 2) == 0x4000 && Pow(128, 3) == 0x20_0000
    ensures Pow(128, 4) == 0x1000_0000
    ensures Pow(128, 5) == 0x8_0000_0000 && Pow(128, 10) == 0x40_0000_0000_0000_0000
    ensures Pow(256, 1) == TWO_TO_THE_8 && Pow(256, 2) == TWO_TO_THE_16
    ensures Pow(256, 4) == TWO_TO_THE_32 && Pow(256, 8) == TWO_TO_THE_64
  {
    assert Pow(128, 5) == 128 * 128 * 128 * 128 * 128;
    assert Pow(128, 10) == 128 * 128 * 128 * 128 * 128 * Pow(128, 5);
    assert Pow(256, 4) == 256 * 256 * 256 * 256;
    assert Pow(256, 8) == 256 * 256 * 256 * 256 * Pow(256, 4);
  }

  lemma {:induction false} BerConsumes(s: Bytes, max: nat, acc: nat, digits: nat)
    requires acc < Pow(128, digits) && FromBer(s, max, acc).Got?
    ensures var r := FromBer(s, max, acc);
      |r.rest| < |s| && r.value < Pow(128, digits + |s| - |r.rest|)
    decreases max
  {
    var v := Shift(acc, s[0]);
    assert v < Pow(128, digits + 1);
    if s[0] >= 128 {
      BerConsumes(s[1..], max - 1, v, digits + 1);
    }
  }

  /** No byte string that decodes to a value is shorter than the value's encoding. */
  lemma BerIsShortest(s: Bytes, max: nat)
    requires FromBer(s, max, 0).Got?
    ensures var r := FromBer(s, max, 0);
      |Ber128(r.value)| <= |s| - |r.rest|
  {
    BerConsumes(s, max, 0, 0);
    var r := FromBer(s, max, 0);
    BerLen(r.value, |s| - |r.rest|);
  }

  /** Cutting an encoding short anywhere is noticed. */
  lemma {:induction false} BerTruncatedFails(v: nat, k: nat, max: nat)
    requires v < TWO_TO_THE_64 && k < |Ber128(v)| <= max
    ensures FromBer(Ber128(v)[..k], max, 0) == Failed
  {
    assert Ber128(v)[..k] == High(v / 128)[..k];
    ContinuedFails(High(v / 128)[..k], max, 0) by { HighContinues(v / 128); }
  }

  lemma {:induction false} HighContinues(u: nat)
    ensures forall i :: 0 <= i < |High(u)| ==> High(u)[i] >= 128
  {
    if u > 0 {
      HighContinues(u / 128);
    }
  }

  lemma {:induction false} ContinuedFails(s: Bytes, max: nat, acc: nat)
    requires forall i :: 0 <= i < |s| ==> s[i] >= 128
    ensures FromBer(s, max, acc) == Failed
    decreases max
  {
    if max > 0 && s != [] {
      ContinuedFails(s[1..], max - 1, Shift(acc, s[0]));
    }
  }

  // ---------------------------------------------------------------------------------------------
  // Integers in either form
  // ---------------------------------------------------------------------------------------------

  predicate Width(bits: nat) { bits == 16 || bits == 32 || bits == 64 }

  function EncUint(v: nat, bits: nat, mode: Mode): Bytes {
    if mode == Ber then Ber128(v) else Le(v, bits / 8)
  }

  /** A fixed-width read takes what is there: it fails only when nothing is left. */
  function DecUint(s: Bytes, bits: nat, mode: Mode): Read<nat> {
    if mode == Ber then
      var (v, rest) :- FromBer(s, bits / 7 + 1, 0);
      Got(v % Pow(256, bits / 8), rest)
    else if s == [] then Failed
    else
      var k := Min(bits / 8, |s|);
      Got(FromLe(s[..k]), s[k..])
  }

  lemma UintInverse(v: nat, bits: nat, mode: Mode, t: Bytes)
    requires Width(bits) && v < Pow(256, bits / 8)
    ensures DecUint(EncUint(v, bits, mode) + t, bits, mode) == Got(v, t)
  {
    hide Pow, FromBer, Ber128, Le, FromLe;
    Powers();
    if mode == Ber {
      assert bits / 7 + 1 == if bits == 16 then 3 else if bits == 32 then 5 else 10;
      BerLen(v, bits / 7 + 1);
      BerDecodes(v, t, bits / 7 + 1);
    } else {
      LeInverse(v, bits / 8);
      assert (Le(v, bits / 8) + t)[..bits / 8] == Le(v, bits / 8);
    }
  }

  /** The first bytes of a fixed-width integer are taken for the whole of it. */
  lemma {:induction false} ShortReadAccepted(v: nat, bits: nat, k: nat)
    requires Width(bits) && 1 <= k <= bits / 8
    ensures DecUint(Le(v, bits / 8)[..k], bits, Default) == Got(v % Pow(256, k), [])
  {
    LePrefix(v, bits / 8, k);
    assert Le(v, k)[..k] == Le(v, k);
  }

  lemma {:induction false} LePrefix(v: nat, n: nat, k: nat)
    requires k <= n
    ensures Le(v, n)[..k] == Le(v, k) && FromLe(Le(v, k)) == v % Pow(256, k)
  {
    if k > 0 {
      LePrefix(v / 256, n - 1, k - 1);
      assert Le(v, k)[1..] == Le(v / 256, k - 1);
      ModDigit(v, Pow(256, k - 1));
    }
  }

  lemma ModDigit(v: nat, p: nat)
    requires p > 0
    ensures v % (256 * p) == v % 256 + 256 * (v / 256 % p)
  {
    var q, d, r := v / 256 / p, v % 256, v / 256 % p;
    assert v / 256 == q * p + r;
    assert v == q * (256 * p) + (d + 256 * r);
    assert d + 256 * r < 256 * p;
    DivIsUnique(v, 256 * p, q, d + 256 * r);
  }

  // ---------------------------------------------------------------------------------------------
  // Byte strings and lists
  // ---------------------------------------------------------------------------------------------

  /** The length is cut to 32 bits, as the conversion in the program does. */
  function EncBytes(v: Bytes, mode: Mode): Bytes { EncUint(|v| % TWO_TO_THE_32, 32, mode) + v }

  function DecBytes(s: Bytes, mode: Mode): Read<Bytes> {
    var (n, rest) :- DecUint(s, 32, mode);
    if n > |rest| then Failed else Got(rest[..n], rest[n..])
  }

  lemma BytesInverse(v: Bytes, mode: Mode, t: Bytes)
    requires |v| < TWO_TO_THE_32
    ensures DecBytes(EncBytes(v, mode) + t, mode) == Got(v, t)
  {
    hide DecUint, EncUint;
    Powers();
    UintInverse(|v|, 32, mode, v + t);
    assert EncBytes(v, mode) + t == EncUint(|v|, 32, mode) + (v + t);
    assert (v + t)[..|v|] == v && (v + t)[|v|..] == t;
  }

  function EncMany<T>(enc: T -> Bytes, xs: seq<T>): Bytes {
    if xs == [] then [] else EncMany(enc, xs[..|xs| - 1]) + enc(xs[|xs| - 1])
  }

  /** Reads `n` items one after the other, up to the first that cannot be read. */
  function DecMany<T>(dec: Bytes -> Read<T>, s: Bytes, n: nat): Read<seq<T>>
    decreases n
  {
    if n == 0 then Got([], s)
    else
      var (x, rest) :- dec(s);
      After([x], DecMany(dec, rest, n - 1))
  }

  function After<T>(xs: seq<T>, r: Read<seq<T>>): Read<seq<T>> {
    if r.Got? then Got(xs + r.value, r.rest) else r
  }

  lemma AfterJoins<T>(a: seq<T>, b: seq<T>, r: Read<seq<T>>)
    ensures After([], r) == r && After(a, After(b, r)) == After(a + b, r)
    ensures forall s: Bytes :: After(a, Got([], s)) == Got(a, s)
  {
    if r.Got? {
      assert [] + r.value == r.value && a + (b + r.value) == (a + b) + r.value;
    }
    assert a + [] == a;
  }

  /** On inputs shorter than `limit`, decoding undoes the encoding of `x` and leaves what follows. */
  ghost predicate Inverse<T>(enc: T -> Bytes, dec: Bytes -> Read<T>, x: T, limit: nat) {
    forall t: Bytes :: |enc(x) + t| < limit ==> dec(enc(x) + t) == Got(x, t)
  }

  lemma {:induction false} ManyInverse<T>(enc: T -> Bytes, dec: Bytes -> Read<T>, xs: seq<T>, t: Bytes, limit: nat)
    requires forall x :: x in xs ==> Inverse(enc, dec, x, limit)
    requires |EncMany(enc, xs) + t| < limit
    ensures DecMany(dec, EncMany(enc, xs) + t, |xs|) == Got(xs, t)
  {
    if xs == [] {
      assert EncMany(enc, xs) + t == t;
    } else {
      EncManyHead(enc, xs);
      var tail := EncMany(enc, xs[1..]) + t;
      assert EncMany(enc, xs) + t == enc(xs[0]) + tail;
      assert Inverse(enc, dec, xs[0], limit);
      ManyInverse(enc, dec, xs[1..], t, limit);
      assert [xs[0]] + xs[1..] == xs;
    }
  }

  lemma {:induction false} EncManyHead<T>(enc: T -> Bytes, xs: seq<T>)
    requires xs != []
    ensures EncMany(enc, xs) == enc(xs[0]) + EncMany(enc, xs[1..])
    decreases |xs|
  {
    var n := |xs| - 1;
    if n == 0 {
      assert enc(xs[0]) + [] == enc(xs[0]) && [] + enc(xs[0]) == enc(xs[0]);
      assert xs[1..] == [] && xs[..0] == [];
    } else {
      EncManyHead(enc, xs[..n]);
      assert xs[..n][1..] == xs[1..][..n - 1];
      assert (enc(xs[0]) + EncMany(enc, xs[1..n])) + enc(xs[n]) == enc(xs[0]) + (EncMany(enc, xs[1..n]) + enc(xs[n]));
    }
  }

  // ---------------------------------------------------------------------------------------------
  // The reader and the programs
  // ---------------------------------------------------------------------------------------------

  /** What a program read is what the decoder says: the value and what then remains, or an error. */
  ghost predicate Agrees<T>(want: Read<T>, ok: bool, v: T, rest: Bytes) {
    want == if ok then Got(v, rest) else Failed
  }

  class Reader {
    const data: Bytes
    var pos: nat

    ghost predicate Valid()
      reads this
    {
      pos <= |data|
    }

    function Rest(): Bytes
      requires Valid()
      reads this
    {
      data[pos..]
    }

    constructor (data: Bytes)
      ensures Valid() && this.data == data && Rest() == data
    {
      this.data, pos := data, 0;
    }

    function Len(): (n: nat)
      requires Valid()
      reads this
      ensures n == |Rest()|
    {
      |data| - pos
    }

    method ReadByte() returns (b: Byte, ok: bool)
      requires Valid()
      modifies this
      ensures Valid() && ok == (old(Rest()) != [])
      ensures if ok then old(Rest()) == [b] + Rest() else Rest() == old(Rest()) && b == 0
    {
      if pos >= |data| {
        return 0, false;
      }
      b, ok := data[pos], true;
      pos := pos + 1;
    }

    /** Copies what is there, up to `n` bytes, over a buffer of zeros. */
    method ReadSome(n: nat) returns (buf: Bytes, ok: bool)
      requires Valid()
      modifies this
      ensures Valid() && ok == (old(Rest()) != []) && |buf| == n
      ensures var k := Min(n, |old(Rest())|);
        Rest() == old(Rest())[k..] && buf == old(Rest())[..k] + seq(n - k, i => 0)
    {
      var k := Min(n, |data| - pos);
      buf := data[pos..pos + k] + seq(n - k, i => 0);
      ok := pos < |data|;
      pos := pos + k;
    }

    method Skip(n: nat)
      requires Valid() && n <= Len()
      modifies this
      ensures Valid() && Rest() == old(Rest())[n..]
    {
      pos := pos + n;
    }

    method ReadFull(n: nat) returns (buf: Bytes, ok: bool)
      requires Valid()
      modifies this
      ensures Valid() && ok == (n <= |old(Rest())|)
      ensures ok ==> old(Rest()) == buf + Rest() && |buf| == n
    {
      if n > |data| - pos {
        buf, pos := data[pos..], |data|;
        return buf, false;
      }
      buf, ok := data[pos..pos + n], true;
      pos := pos + n;
    }
  }

  lemma {:induction false} PaddedLe(s: Bytes, n: nat)
    ensures FromLe(s + seq(n, i => 0)) == FromLe(s)
  {
    var z: Bytes := seq(n, i => 0);
    if s != [] {
      PaddedLe(s[1..], n);
      assert (s + z)[1..] == s[1..] + z;
    } else if n > 0 {
      PaddedLe([], n - 1);
      assert (s + z)[1..] == [] + seq(n - 1, i => 0);
    } else {
      assert s + z == s;
    }
  }

  /** Fills the buffer from the right; the byte written first is the only one without a mark. */
  method PackUint64Ber(w: Bytes, v: nat) returns (r: Bytes)
    requires v < TWO_TO_THE_64
    ensures r == w + Ber128(v)
  {
    hide Pow;
    if v == 0 {
      return w + [0];
    }
    var buf := new Byte[10](i => 0);
    var n: int, u: nat := 9, v;
    Powers();
    while n >= 0 && u > 0
      invariant -1 <= n <= 9 && u < Pow(128, n + 1)
      invariant n == 9 ==> u == v
      invariant n < 9 ==> Ber128(v) == High(u) + buf[n + 1..]
    {
      ghost var done := buf[n + 1..];
      buf[n] := u % 128;
      ghost var was := u;
      u := u / 128;
      if n != 9 {
        buf[n] := buf[n] + 128;
      }
      assert buf[n..] == [buf[n]] + done;
      assert n < 9 ==> High(was) + done == High(u) + buf[n..];
      PowStep(128, n + 1);
      n := n - 1;
    }
    assert n < 0 ==> u < Pow(128, 0);
    assert High(0) + buf[n + 1..] == buf[n + 1..];
    r := w + buf[n + 1..];
  }

  method PackUint16(w: Bytes, v: nat, mode: Mode) returns (r: Bytes)
    requires v < TWO_TO_THE_16
    ensures r == w + EncUint(v, 16, mode)
  {
    if mode == Ber {
      r := PackUint64Ber(w, v);
    } else {
      assert Le(v, 2) == [v % 256, v / 256];
      r := w + [v % 256, v / 256];
    }
  }

  method PackUint32(w: Bytes, v: nat, mode: Mode) returns (r: Bytes)
    requires v < TWO_TO_THE_32
    ensures r == w + EncUint(v, 32, mode)
  {
    if mode == Ber {
      r := PackUint64Ber(w, v);
    } else {
      LeBytes(v, 4);
      BytePowers();
      r := w + [v % 256, v / 0x100 % 256, v / 0x1_0000 % 256, v / 0x100_0000 % 256];
      assert r[|w|..] == Le(v, 4);
    }
  }

  method PackUint64(w: Bytes, v: nat, mode: Mode) returns (r: Bytes)
    requires v < TWO_TO_THE_64
    ensures r == w + EncUint(v, 64, mode)
  {
    if mode == Ber {
      r := PackUint64Ber(w, v);
    } else {
      LeBytes(v, 8);
      BytePowers();
      r := w + [v % 256, v / 0x100 % 256, v / 0x1_0000 % 256, v / 0x100_0000 % 256, v / 0x1_0000_0000 % 256,
                v / 0x100_0000_0000 % 256, v / 0x1_0000_0000_0000 % 256, v / 0x100_0000_0000_0000 % 256];
      assert r[|w|..] == Le(v, 8);
    }
  }

  /** Byte `k` is the value shifted right by `k` bytes and cut. */
  lemma {:induction false} LeBytes(v: nat, n: nat)
    ensures forall k :: 0 <= k < n ==> Le(v, n)[k] == v / Pow(256, k) % 256
  {
    if n > 0 {
      LeBytes(v / 256, n - 1);
      forall k | 0 <= k < n ensures Le(v, n)[k] == v / Pow(256, k) % 256 {
        if k > 0 {
          hide Pow;
          assert Le(v, n)[k] == Le(v / 256, n - 1)[k - 1];
          DivTwice(v, 256, Pow(256, k - 1));
          PowStep(256, k);
        }
      }
    }
  }

  lemma PowStep(b: nat, n: nat)
    requires n > 0
    ensures Pow(b, n) == b * Pow(b, n - 1)
  {
  }

  lemma BytePowers()
    ensures Pow(256, 0) == 1 && Pow(256, 1) == 0x100 && Pow(256, 2) == 0x1_0000 && Pow(256, 3) == 0x100_0000
    ensures Pow(256, 4) == 0x1_0000_0000 && Pow(256, 5) == 0x100_0000_0000
    ensures Pow(256, 6) == 0x1_0000_0000_0000 && Pow(256, 7) == 0x100_0000_0000_0000
  {
    assert Pow(256, 4) == 256 * 256 * 256 * 256 && Pow(256, 7) == 256 * 256 * 256 * Pow(256, 4);
  }

  lemma DivTwice(v: nat, a: nat, b: nat)
    requires a > 0 && b > 0
    ensures v / a / b == v / (a * b)
  {
    var q, r, s := v / a / b, v / a % b, v % a;
    assert v == (q * b + r) * a + s;
    Regroup(q, b, r, a);
    RemainderFits(r, b, a, s);
    DivIsUnique(v, a * b, q, r * a + s);
  }

  lemma Regroup(q: int, b: int, r: int, a: int)
    ensures (q * b + r) * a == q * (a * b) + r * a
  {
  }

  lemma RemainderFits(r: int, b: int, a: int, s: int)
    requires 0 <= r < b && 0 <= s < a
    ensures 0 <= r * a + s < a * b
  {
    assert r * a <= (b - 1) * a;
  }

  method PackBytes(w: Bytes, v: Bytes, mode: Mode) returns (r: Bytes)
    ensures r == w + EncBytes(v, mode)
  {
    r := PackUint32(w, |v| % TWO_TO_THE_32, mode);
    r := r + v;
  }

  method UnpackBer(r: Reader, bits: nat) returns (v: nat, ok: bool)
    requires r.Valid()
    modifies r
    ensures r.Valid() && Agrees(FromBer(old(r.Rest()), bits / 7 + 1, 0), ok, v, r.Rest())
  {
    v := 0;
    for i := 0 to bits / 7 + 1
      invariant r.Valid()
      invariant FromBer(old(r.Rest()), bits / 7 + 1, 0) == FromBer(r.Rest(), bits / 7 + 1 - i, v)
    {
      hide Shift;
      var b, got := r.ReadByte();
      if !got {
        break;
      }
      v := Shift(v, b);
      if b < 128 {
        return v, true;
      }
    }
    return 0, false;
  }

  method UnpackUint32(r: Reader, mode: Mode) returns (v: nat, ok: bool)
    requires r.Valid()
    modifies r
    ensures r.Valid() && Agrees(DecUint(old(r.Rest()), 32, mode), ok, v, r.Rest())
  {
    hide FromBer, Pow;
    if mode == Ber {
      var v0, got := UnpackBer(r, 32);
      Powers();
      return v0 % TWO_TO_THE_32, got;
    }
    var data;
    data, ok := r.ReadSome(4);
    PaddedLe(old(r.Rest())[..Min(4, |old(r.Rest())|)], 4 - Min(4, |old(r.Rest())|));
    v := FromLe(data);
  }

  method UnpackUint16(r: Reader, mode: Mode) returns (v: nat, ok: bool)
    requires r.Valid()
    modifies r
    ensures r.Valid() && Agrees(DecUint(old(r.Rest()), 16, mode), ok, v, r.Rest())
  {
    hide FromBer, Pow;
    if mode == Ber {
      var v0, got := UnpackBer(r, 16);
      Powers();
      return v0 % TWO_TO_THE_16, got;
    }
    var data;
    data, ok := r.ReadSome(2);
    PaddedLe(old(r.Rest())[..Min(2, |old(r.Rest())|)], 2 - Min(2, |old(r.Rest())|));
    v := FromLe(data);
  }

  method UnpackUint64(r: Reader, mode: Mode) returns (v: nat, ok: bool)
    requires r.Valid()
    modifies r
    ensures r.Valid() && Agrees(DecUint(old(r.Rest()), 64, mode), ok, v, r.Rest())
  {
    hide FromBer, Pow;
    if mode == Ber {
      v, ok := UnpackBer(r, 64);
      NothingCut(old(r.Rest()));
      return;
    }
    var data;
    data, ok := r.ReadSome(8);
    PaddedLe(old(r.Rest())[..Min(8, |old(r.Rest())|)], 8 - Min(8, |old(r.Rest())|));
    v := FromLe(data);
  }

  lemma {:induction false} BerFits(s: Bytes, max: nat, acc: nat)
    ensures FromBer(s, max, acc).Got? ==> FromBer(s, max, acc).value < TWO_TO_THE_64
    decreases max
  {
    if max > 0 && s != [] {
      assert Shift(acc, s[0]) < TWO_TO_THE_64 by {
        var x := acc * 128 % TWO_TO_THE_64;
        assert x == acc * 128 - acc * 128 / TWO_TO_THE_64 * TWO_TO_THE_64;
        assert x % 128 == 0;
      }
      if s[0] >= 128 {
        BerFits(s[1..], max - 1, Shift(acc, s[0]));
      }
    }
  }

  lemma NothingCut(s: Bytes)
    ensures DecUint(s, 64, Ber) == FromBer(s, 10, 0)
  {
    hide FromBer, Pow;
    Powers();
    BerFits(s, 10, 0);
    NotBeyond(s, 10, 0);
  }

  lemma {:induction false} NotBeyond(s: Bytes, max: nat, acc: nat)
    ensures FromBer(s, max, acc) != Beyond
    decreases max
  {
    if max > 0 && s != [] && s[0] >= 128 {
      NotBeyond(s[1..], max - 1, Shift(acc, s[0]));
    }
  }

  /** The length is held against the whole packet first, then against what is left of it. */
  method UnpackBytes(r: Reader, mode: Mode) returns (v: Bytes, ok: bool)
    requires r.Valid()
    modifies r
    ensures r.Valid() && Agrees(DecBytes(old(r.Rest()), mode), ok, v, r.Rest())
  {
    var n, got := UnpackUint32(r, mode);
    if !got {
      return [], false;
    }
    if n > |r.data| {
      return [], false;
    }
    v, ok := r.ReadFull(n);
  }
}
