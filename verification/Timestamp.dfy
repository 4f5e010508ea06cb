/** Monotonic timestamps: adding a duration, and a difference that saturates. */
module Timestamp {

  import opened Common

  const SECOND: int := 1_000_000_000
  const MIN_DURATION: int := -0x8000_0000_0000_0000
  const MAX_DURATION: int := 0x7fff_ffff_ffff_ffff

  type Int64 = x: int | MIN_DURATION <= x <= MAX_DURATION

  datatype Timestamp = Timestamp(sec: Int64, nsec: int)

  predicate Fits(x: int) { MIN_DURATION <= x <= MAX_DURATION }

  /** Signed 64-bit arithmetic wraps around. */
  function Wrap(x: int): Int64 { (x - MIN_DURATION) % TWO_TO_THE_64 + MIN_DURATION }

  /** Division that rounds toward zero, and its remainder. */
  function Quot(a: int, b: int): int
    requires b > 0
  {
    if a >= 0 then a / b else -(-a / b)
  }

  function Rem(a: int, b: int): int
    requires b > 0
  {
    a - Quot(a, b) * b
  }

  predicate Normal(t: Timestamp) { 0 <= t.nsec < SECOND }

  function Add(t: Timestamp, d: Int64): Timestamp {
    var sec := Wrap(t.sec + Quot(d, SECOND));
    var nsec := t.nsec + Rem(d, SECOND);
    if nsec >= SECOND then Timestamp(Wrap(sec + 1), nsec - SECOND)
    else if nsec < 0 then Timestamp(Wrap(sec - 1), nsec + SECOND)
    else Timestamp(sec, nsec)
  }

  predicate Before(t: Timestamp, u: Timestamp) { t.sec < u.sec || (t.sec == u.sec && t.nsec < u.nsec) }

  function Sub(t: Timestamp, u: Timestamp): Int64 {
    var d := Wrap(Wrap(Wrap(t.sec - u.sec) * SECOND) + (t.nsec - u.nsec));
    if Add(u, d) == t then d else if Before(t, u) then MIN_DURATION else MAX_DURATION
  }

  // ---------------------------------------------------------------------------------------------
  // What the difference is
  // ---------------------------------------------------------------------------------------------

  /** The difference in nanoseconds. */
  function Exact(t: Timestamp, u: Timestamp): int { (t.sec - u.sec) * SECOND + (t.nsec - u.nsec) }

  function Saturated(x: int): Int64 {
    if x < MIN_DURATION then MIN_DURATION else if x > MAX_DURATION then MAX_DURATION else x
  }

  /** The difference as it is when the seconds are subtracted in 64 bits. */
  function Told(t: Timestamp, u: Timestamp): int { Wrap(t.sec - u.sec) * SECOND + (t.nsec - u.nsec) }

  lemma WrapTwice(x: int, y: int)
    ensures Wrap(Wrap(x) + y) == Wrap(x + y)
  {
  }

  lemma FitsStays(x: int)
    requires Fits(x)
    ensures Wrap(x) == x
  {
  }

  /** Carrying makes the sum the normal form of the nanoseconds added up. */
  lemma AddCarries(t: Timestamp, d: Int64)
    requires Normal(t)
    ensures Normal(Add(t, d))
    ensures Add(t, d) == Timestamp(Wrap(t.sec + (t.nsec + d) / SECOND), (t.nsec + d) % SECOND)
  {
    hide Wrap;
    var q, n := Quot(d, SECOND), t.nsec + Rem(d, SECOND);
    assert t.nsec + d == q * SECOND + n;
    if n >= SECOND {
      WrapTwice(t.sec + q, 1);
      DivIsUnique(t.nsec + d, SECOND, q + 1, n - SECOND);
    } else if n < 0 {
      WrapTwice(t.sec + q, -1);
      DivIsUnique(t.nsec + d, SECOND, q - 1, n + SECOND);
    } else {
      DivIsUnique(t.nsec + d, SECOND, q, n);
    }
  }

  /** One duration alone leads from one timestamp to the other, if any does. */
  lemma AddReaches(t: Timestamp, u: Timestamp, d: Int64)
    requires Normal(t) && Normal(u)
    ensures Add(u, d) == t <==> d == Told(t, u)
  {
    var w := Wrap(t.sec - u.sec);
    AddCarries(u, d);
    var q := (u.nsec + d) / SECOND;
    if d == Told(t, u) {
      assert u.nsec + d == w * SECOND + t.nsec;
      assert q == w && (u.nsec + d) % SECOND == t.nsec;
      WrapTwice(t.sec - u.sec, u.sec);
      FitsStays(t.sec);
    } else if Add(u, d) == t {
      SameModulo(u.sec, q, w, t.sec);
    }
  }

  lemma SameModulo(a: Int64, q: int, w: Int64, b: Int64)
    requires Wrap(a + q) == b && w == Wrap(b - a) && Fits(q)
    ensures q == w
  {
  }

  /** The difference of any two timestamps. */
  lemma SubTells(t: Timestamp, u: Timestamp)
    requires Normal(t) && Normal(u)
    ensures Sub(t, u) == if Fits(Told(t, u)) then Told(t, u) else if Before(t, u) then MIN_DURATION else MAX_DURATION
    ensures Add(u, Sub(t, u)) == t <==> Fits(Told(t, u))
  {
    hide Wrap, Add;
    WrapTwice(Wrap(t.sec - u.sec) * SECOND, t.nsec - u.nsec);
    AddReaches(t, u, Wrap(Told(t, u)));
    AddReaches(t, u, Sub(t, u));
    if Fits(Told(t, u)) {
      FitsStays(Told(t, u));
    }
  }

  /**
   * The difference is exact, or saturated on the right side, except when the seconds are too far apart for
   * 64 bits and the wrapped difference happens to be a duration.
   */
  lemma SubIsSaturated(t: Timestamp, u: Timestamp)
    requires Normal(t) && Normal(u)
    ensures Sub(t, u) == Saturated(Exact(t, u)) <==> Fits(t.sec - u.sec) || !Fits(Told(t, u))
  {
    SubTells(t, u);
    if Fits(t.sec - u.sec) {
      FitsStays(t.sec - u.sec);
    } else {
      FarApart(t, u);
    }
  }

  /** Seconds that far apart wrap to the other side. */
  lemma FarApart(t: Timestamp, u: Timestamp)
    requires Normal(t) && Normal(u) && !Fits(t.sec - u.sec)
    ensures t.sec > u.sec ==> Told(t, u) < 0 && Exact(t, u) > MAX_DURATION
    ensures t.sec < u.sec ==> Told(t, u) > 0 && Exact(t, u) < MIN_DURATION
  {
  }

  /** Adding the difference undoes it exactly when it fits. */
  lemma AddUndoesSub(t: Timestamp, u: Timestamp)
    requires Normal(t) && Normal(u) && Fits(t.sec - u.sec)
    ensures Add(u, Sub(t, u)) == t <==> Fits(Exact(t, u))
  {
    SubTells(t, u);
    FitsStays(t.sec - u.sec);
  }

  lemma OneShort()
    ensures Wrap(MAX_DURATION - MIN_DURATION) == -1
  {
  }

  /** Seconds 2^64 - 1 apart are told to be one second apart, the other way round. */
  lemma FarApartWraps()
    ensures var t, u := Timestamp(MAX_DURATION, 0), Timestamp(MIN_DURATION, 0);
      Sub(t, u) == -SECOND && !Before(t, u)
  {
    hide Sub, Add, Wrap;
    var t, u := Timestamp(MAX_DURATION, 0), Timestamp(MIN_DURATION, 0);
    assert Wrap(t.sec - u.sec) == -1 by { OneShort(); }
    SubTells(t, u);
  }
}
