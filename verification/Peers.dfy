/** Remote addresses of pools and the order in which the cluster code sorts them. */
module Peers {

  datatype Addr = Addr(network: string, addr: string)

  /** A pool is a reference in the program: two pools may share a remote address. */
  datatype Pool = Pool(id: nat, addr: Addr)

  /** The program's `<` on strings: lexicographic, a proper prefix comes first. */
  predicate Before(a: string, b: string) {
    if b == "" then false
    else if a == "" then true
    else if a[0] != b[0] then a[0] < b[0]
    else Before(a[1..], b[1..])
  }

  lemma {:induction false} BeforeTrichotomy(a: string, b: string)
    ensures Before(a, b) || Before(b, a) || a == b
    ensures !(Before(a, b) && Before(b, a))
    ensures a == b ==> !Before(a, b)
    decreases |a|
  {
    if a != "" && b != "" && a[0] == b[0] {
      BeforeTrichotomy(a[1..], b[1..]);
      assert a == [a[0]] + a[1..] && b == [b[0]] + b[1..];
    }
  }

  /** The strings agree up to a place where the first ends or has the lower character. */
  lemma {:induction false} BeforeMeans(a: string, b: string)
    ensures Before(a, b) <==>
      exists k: nat :: k <= |a| && k < |b| && a[..k] == b[..k] && (k == |a| || a[k] < b[k])
    decreases |a|
  {
    if a != "" && b != "" && a[0] == b[0] {
      BeforeMeans(a[1..], b[1..]);
      if k: nat :|
        k <= |a[1..]| && k < |b[1..]| && a[1..][..k] == b[1..][..k] && (k == |a[1..]| || a[1..][k] < b[1..][k]) {
        assert a[..k + 1] == [a[0]] + a[1..][..k] && b[..k + 1] == [b[0]] + b[1..][..k];
      }
      if k: nat :| k <= |a| && k < |b| && a[..k] == b[..k] && (k == |a| || a[k] < b[k]) {
        assert k > 0;
        assert a[1..][..k - 1] == a[..k][1..] && b[1..][..k - 1] == b[..k][1..];
      }
    } else if a == "" && b != "" {
      assert a[..0] == b[..0];
    } else if a != "" && b != "" {
      assert a[..0] == b[..0];
      assert forall k: nat :: 0 < k <= |a| && k < |b| ==> a[..k][0] != b[..k][0];
    }
  }

  lemma {:induction false} BeforeTransitive(a: string, b: string, c: string)
    requires Before(a, b) && Before(b, c)
    ensures Before(a, c)
    decreases |a|
  {
    if a != "" && a[0] == b[0] == c[0] {
      BeforeTransitive(a[1..], b[1..], c[1..]);
    }
  }

  predicate Less(a: Addr, b: Addr) {
    Before(a.network, b.network) || (a.network == b.network && Before(a.addr, b.addr))
  }

  lemma LessTrichotomy(a: Addr, b: Addr)
    ensures Less(a, b) || Less(b, a) || a == b
    ensures !(Less(a, b) && Less(b, a))
    ensures a == b ==> !Less(a, b)
  {
    BeforeTrichotomy(a.network, b.network);
    BeforeTrichotomy(a.addr, b.addr);
  }

  lemma LessTransitive(a: Addr, b: Addr, c: Addr)
    requires Less(a, b) && Less(b, c)
    ensures Less(a, c)
  {
    if Before(a.network, b.network) && Before(b.network, c.network) {
      BeforeTransitive(a.network, b.network, c.network);
    } else if a.network == b.network == c.network {
      BeforeTransitive(a.addr, b.addr, c.addr);
    }
  }

  /** Less is a strict total order. */
  lemma LessIsTotalOrder()
    ensures forall a, b :: Less(a, b) || Less(b, a) || a == b
    ensures forall a, b :: Less(a, b) ==> !Less(b, a) && a != b
    ensures forall a, b, c :: Less(a, b) && Less(b, c) ==> Less(a, c)
  {
    forall a, b ensures Less(a, b) || Less(b, a) || a == b
                ensures Less(a, b) ==> !Less(b, a) && a != b {
      LessTrichotomy(a, b);
    }
    forall a, b, c | Less(a, b) && Less(b, c) ensures Less(a, c) {
      LessTransitive(a, b, c);
    }
  }

  /** Three-way comparison of two pools by remote address. */
  function CmpRemoteAddr(ap: Pool, bp: Pool): (r: int)
    ensures r == -1 <==> Less(ap.addr, bp.addr)
    ensures r == 1 <==> Less(bp.addr, ap.addr)
    ensures r == 0 <==> ap.addr == bp.addr
    ensures Before(ap.addr.network, bp.addr.network) ==> r == -1
    ensures ap.addr.network == bp.addr.network ==> (r == -1 <==> Before(ap.addr.addr, bp.addr.addr))
  {
    LessTrichotomy(ap.addr, bp.addr);
    var a, b := ap.addr, bp.addr;
    BeforeTrichotomy(a.network, b.network);
    if Before(a.network, b.network) then -1
    else if Before(b.network, a.network) then 1
    else if Before(a.addr, b.addr) then -1
    else if Before(b.addr, a.addr) then 1
    else 0
  }

  /** The remote addresses of a list of pools, with multiplicity. */
  function Addrs(ps: seq<Pool>): seq<Addr> {
    seq(|ps|, k requires 0 <= k < |ps| => ps[k].addr)
  }

  function Bag(ps: seq<Pool>): multiset<Addr> {
    multiset(Addrs(ps))
  }

  lemma BagConcat(a: seq<Pool>, b: seq<Pool>)
    ensures Bag(a + b) == Bag(a) + Bag(b)
  {
    assert Addrs(a + b) == Addrs(a) + Addrs(b);
  }

  lemma BagCons(x: Pool, a: seq<Pool>)
    ensures Bag([x] + a) == multiset{x.addr} + Bag(a)
    ensures Bag(a + [x]) == Bag(a) + multiset{x.addr}
  {
    BagConcat([x], a);
    BagConcat(a, [x]);
    assert Addrs([x]) == [x.addr];
  }

  lemma BagHas(ps: seq<Pool>, a: Addr)
    ensures Bag(ps)[a] > 0 <==> exists k :: 0 <= k < |ps| && ps[k].addr == a
  {
    if Bag(ps)[a] > 0 {
      assert a in Addrs(ps);
      var k :| 0 <= k < |Addrs(ps)| && Addrs(ps)[k] == a;
      assert ps[k].addr == a;
    }
    forall k | 0 <= k < |ps| && ps[k].addr == a ensures Bag(ps)[a] > 0 {
      assert Addrs(ps)[k] == a;
    }
  }

  lemma BagWithout(ps: seq<Pool>, k: nat)
    requires k < |ps|
    ensures multiset(ps) == multiset(ps[..k] + ps[k + 1..]) + multiset{ps[k]}
    ensures Bag(ps) == Bag(ps[..k] + ps[k + 1..]) + multiset{ps[k].addr}
  {
    assert ps == ps[..k] + ([ps[k]] + ps[k + 1..]);
    BagConcat(ps[..k], [ps[k]] + ps[k + 1..]);
    BagCons(ps[k], ps[k + 1..]);
    BagConcat(ps[..k], ps[k + 1..]);
  }

  lemma Cancel<T>(a: multiset<T>, b: multiset<T>, c: multiset<T>)
    requires a + c == b + c
    ensures a == b
  {
    assert a == (a + c) - c;
    assert b == (b + c) - c;
  }

  lemma {:induction false} BagOfPermutation(a: seq<Pool>, b: seq<Pool>)
    requires multiset(a) == multiset(b)
    ensures Bag(a) == Bag(b)
    decreases |a|
  {
    if a == [] {
      assert b == [];
    } else {
      assert a[0] in multiset(b);
      var k :| 0 <= k < |b| && b[k] == a[0];
      var tail, rest := a[..0] + a[1..], b[..k] + b[k + 1..];
      BagWithout(a, 0);
      BagWithout(b, k);
      Cancel(multiset(tail), multiset(rest), multiset{a[0]});
      BagOfPermutation(tail, rest);
    }
  }

  predicate Sorted(ps: seq<Pool>) {
    forall i, j :: 0 <= i < j < |ps| ==> !Less(ps[j].addr, ps[i].addr)
  }

  predicate DistinctAddrs(ps: seq<Pool>) {
    forall i, j :: 0 <= i < j < |ps| ==> ps[i].addr != ps[j].addr
  }

  lemma {:induction false} DistinctIffBag(ps: seq<Pool>)
    ensures DistinctAddrs(ps) <==> forall a :: Bag(ps)[a] <= 1
    decreases |ps|
  {
    if ps != [] {
      var x, rest := ps[|ps| - 1], ps[..|ps| - 1];
      assert ps == rest + [x];
      DistinctIffBag(rest);
      BagCons(x, rest);
      BagHas(rest, x.addr);
      if DistinctAddrs(ps) {
        assert forall k :: 0 <= k < |rest| ==> rest[k] == ps[k];
      } else if DistinctAddrs(rest) {
        var i, j :| 0 <= i < j < |ps| && ps[i].addr == ps[j].addr;
        assert j == |rest| && rest[i].addr == x.addr;
        assert Bag(ps)[x.addr] >= 2;
      } else {
        var a :| Bag(rest)[a] > 1;
        assert Bag(ps)[a] > 1;
      }
    }
  }

  /** The library's stable sort, as a specified step: a sorted permutation. */
  function StableSort(ps: seq<Pool>): (r: seq<Pool>)
    ensures |r| == |ps| && multiset(r) == multiset(ps)
    ensures Sorted(r)
  {
    if ps == [] then [] else
      assert ps == ps[..|ps| - 1] + [ps[|ps| - 1]];
      InsertSorted(StableSort(ps[..|ps| - 1]), ps[|ps| - 1])
  }

  function InsertSorted(ps: seq<Pool>, x: Pool): (r: seq<Pool>)
    requires Sorted(ps)
    ensures |r| == |ps| + 1 && multiset(r) == multiset(ps) + multiset{x}
    ensures Sorted(r)
  {
    if ps == [] then [x]
    else
      var last, rest := ps[|ps| - 1], ps[..|ps| - 1];
      assert ps == rest + [last];
      if Less(x.addr, last.addr) then
        var r := InsertSorted(rest, x);
        SortedSnoc(rest, x, r, last);
        r + [last]
      else
        SortedAppend(ps, x);
        ps + [x]
  }

  lemma SortedSnoc(rest: seq<Pool>, x: Pool, r: seq<Pool>, last: Pool)
    requires Sorted(rest + [last]) && Sorted(r) && multiset(r) == multiset(rest) + multiset{x}
    requires Less(x.addr, last.addr)
    ensures Sorted(r + [last])
  {
    forall k | 0 <= k < |r| ensures !Less(last.addr, r[k].addr) {
      assert r[k] in multiset(r);
      if r[k] in rest {
        var m :| 0 <= m < |rest| && rest[m] == r[k];
        assert (rest + [last])[m] == r[k] && (rest + [last])[|rest|] == last;
      } else {
        assert r[k] == x;
        LessTrichotomy(x.addr, last.addr);
      }
    }
  }

  lemma SortedAppend(ps: seq<Pool>, x: Pool)
    requires Sorted(ps) && ps != [] && !Less(x.addr, ps[|ps| - 1].addr)
    ensures Sorted(ps + [x])
  {
    var last := ps[|ps| - 1];
    forall k | 0 <= k < |ps| ensures !Less(x.addr, ps[k].addr) {
      LessTrichotomy(x.addr, last.addr);
      LessTrichotomy(last.addr, ps[k].addr);
      if Less(x.addr, ps[k].addr) {
        if Less(last.addr, x.addr) {
          LessTransitive(last.addr, x.addr, ps[k].addr);
        }
      }
    }
  }

  /** The pools with one address, in their order. */
  function WithAddr(ps: seq<Pool>, a: Addr): seq<Pool> {
    if ps == [] then []
    else
      var last := ps[|ps| - 1];
      WithAddr(ps[..|ps| - 1], a) + if last.addr == a then [last] else []
  }

  /** The sort is stable: pools with equal addresses keep their order. */
  lemma {:induction false} SortIsStable(ps: seq<Pool>, a: Addr)
    ensures WithAddr(StableSort(ps), a) == WithAddr(ps, a)
    decreases |ps|
  {
    if ps != [] {
      var n := |ps| - 1;
      SortIsStable(ps[..n], a);
      InsertIsLast(StableSort(ps[..n]), ps[n], a);
    }
  }

  lemma {:induction false} InsertIsLast(ps: seq<Pool>, x: Pool, a: Addr)
    requires Sorted(ps)
    ensures WithAddr(InsertSorted(ps, x), a) == WithAddr(ps, a) + if x.addr == a then [x] else []
    decreases |ps|
  {
    hide Less, Before, WithAddr;
    if ps == [] {
      WithAddrSnoc([], x, a);
      assert [] + [x] == [x];
    } else {
      var last, rest := ps[|ps| - 1], ps[..|ps| - 1];
      assert ps == rest + [last];
      WithAddrSnoc(rest, last, a);
      LessTrichotomy(x.addr, last.addr);
      if Less(x.addr, last.addr) {
        InsertIsLast(rest, x, a);
        WithAddrSnoc(InsertSorted(rest, x), last, a);
        assert x.addr != last.addr;
        assert WithAddr(rest, a) + [] == WithAddr(rest, a);
      } else {
        WithAddrSnoc(ps, x, a);
      }
    }
  }

  lemma WithAddrSnoc(ps: seq<Pool>, p: Pool, a: Addr)
    ensures WithAddr([], a) == [] && ps + [p] != []
    ensures WithAddr(ps + [p], a) == WithAddr(ps, a) + if p.addr == a then [p] else []
  {
    assert (ps + [p])[..|ps|] == ps;
  }

  lemma {:induction false} WithAddrConcat(ps: seq<Pool>, qs: seq<Pool>, a: Addr)
    ensures WithAddr(ps + qs, a) == WithAddr(ps, a) + WithAddr(qs, a)
    decreases |qs|
  {
    if qs == [] {
      assert ps + qs == ps;
    } else {
      var n := |qs| - 1;
      assert ps + qs == (ps + qs[..n]) + [qs[n]];
      WithAddrSnoc(ps + qs[..n], qs[n], a);
      WithAddrConcat(ps, qs[..n], a);
    }
  }

  lemma {:induction false} WithAddrSize(ps: seq<Pool>, a: Addr)
    ensures |WithAddr(ps, a)| == Bag(ps)[a]
    ensures forall p :: multiset(WithAddr(ps, a))[p] == if p.addr == a then multiset(ps)[p] else 0
    decreases |ps|
  {
    if ps != [] {
      var n := |ps| - 1;
      WithAddrSize(ps[..n], a);
      BagCons(ps[n], ps[..n]);
      assert ps == ps[..n] + [ps[n]];
    }
  }
}
