/** Types and machine constants used by more than one module. */
module Common {

  datatype Option<+T> = None | Some(value: T)

  datatype Result<+T, +E> = Ok(value: T) | Err(error: E)

  const TWO_TO_THE_8: int := 0x100
  const TWO_TO_THE_16: int := 0x1_0000
  const TWO_TO_THE_32: int := 0x1_0000_0000
  const TWO_TO_THE_64: int := 0x1_0000_0000_0000_0000

  type Byte = x: int | 0 <= x < TWO_TO_THE_8
  type U32 = x: int | 0 <= x < TWO_TO_THE_32

  function Min(a: int, b: int): int { if a <= b then a else b }

  /** What 32 bits keep of a length. */
  function Cut(n: nat): U32 { n % TWO_TO_THE_32 }

  /** Quotient and remainder are the only pair that puts the number together. */
  lemma DivIsUnique(v: int, m: int, q: int, r: int)
    requires m > 0 && 0 <= r < m && v == q * m + r
    ensures v % m == r && v / m == q
  {
    var q', r' := v / m, v % m;
    assert v == q' * m + r';
    assert (q - q') * m == r' - r;
    assert q - q' >= 1 ==> (q - q') * m >= m;
    assert q - q' <= -1 ==> (q - q') * m <= -m;
  }
}

/** Counting the members of sets that change by one. */
module Counting {

  function Bit(b: bool): nat { if b then 1 else 0 }

  /** Sets that agree except on one member differ in size by that member. */
  lemma OneDiffers<T>(a: set<T>, b: set<T>, x: T)
    requires forall y :: y != x ==> (y in a <==> y in b)
    ensures |b| == |a| + Bit(x in b) - Bit(x in a)
  {
    assert a - {x} == b - {x};
    assert a == if x in a then (a - {x}) + {x} else a - {x};
    assert b == if x in b then (b - {x}) + {x} else b - {x};
  }
}
