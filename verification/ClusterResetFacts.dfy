/** What the relation computed by the merge means for a caller of Reset. */
module ClusterResetFacts {
  import opened Common
  import opened Peers
  import opened ClusterReset

  lemma InBag(ps: seq<Pool>, p: Pool)
    requires p in ps
    ensures p.addr in Bag(ps)
  {
    BagHas(ps, p.addr);
  }

  /** The addresses of the merged list are the addresses of the source, nothing more and nothing less. */
  lemma ResultCoversSource(dst: seq<Pool>, src: seq<Pool>, result: seq<Pool>, untouched: seq<Pool>,
                           inserted: seq<Pool>, removed: seq<Pool>, ignored: seq<Pool>)
    requires IsReset(dst, src, result, untouched, inserted, removed, ignored)
    ensures forall a :: a in Bag(result) <==> a in Bag(src)
  {
    BagConcat(inserted, untouched);
    forall a ensures a in Bag(result) <==> a in Bag(src) {
      assert Bag(result)[a] == InsertedCount(Bag(src), Bag(dst), a) + Min(Bag(src)[a], Bag(dst)[a]);
    }
  }

  /** Inserted pools come from the source, have no current peer, and leave no new address out. */
  lemma InsertedAreNew(dst: seq<Pool>, src: seq<Pool>, result: seq<Pool>, untouched: seq<Pool>,
                       inserted: seq<Pool>, removed: seq<Pool>, ignored: seq<Pool>)
    requires IsReset(dst, src, result, untouched, inserted, removed, ignored)
    ensures forall p :: p in inserted ==> p in src && p.addr !in Bag(dst)
    ensures forall a :: a in Bag(src) && a !in Bag(dst) ==> a in Bag(inserted)
    ensures forall p :: p in ignored ==> p in src
  {
    forall p | p in inserted ensures p in src && p.addr !in Bag(dst) {
      InBag(inserted, p);
      assert p in multiset(inserted) && p in multiset(src);
    }
    forall p | p in ignored ensures p in src {
      assert p in multiset(ignored) && p in multiset(src);
    }
  }

  /** With distinct peers, exactly those named by the source stay and exactly the others are removed. */
  lemma UntouchedAndRemoved(dst: seq<Pool>, src: seq<Pool>, result: seq<Pool>, untouched: seq<Pool>,
                            inserted: seq<Pool>, removed: seq<Pool>, ignored: seq<Pool>)
    requires IsReset(dst, src, result, untouched, inserted, removed, ignored)
    requires DistinctAddrs(dst)
    ensures forall p :: p in untouched <==> p in dst && p.addr in Bag(src)
    ensures forall p :: p in removed <==> p in dst && p.addr !in Bag(src)
  {
    DistinctIffBag(dst);
    BagOfPermutation(untouched + removed, dst);
    BagConcat(untouched, removed);
    forall p ensures p in untouched <==> p in dst && p.addr in Bag(src)
             ensures p in removed <==> p in dst && p.addr !in Bag(src)
    {
      assert p in multiset(dst) <==> p in multiset(untouched) || p in multiset(removed);
      if p in untouched { InBag(untouched, p); }
      if p in removed { InBag(removed, p); }
      assert Bag(untouched)[p.addr] == Min(Bag(src)[p.addr], Bag(dst)[p.addr]);
      assert Bag(untouched)[p.addr] + Bag(removed)[p.addr] <= 1;
    }
  }

  /**
   A repeated source address that makes the merged list repeat it: either the peers repeat it too, or it
   is new and some retained address is greater. In the second case a retained pool is swapped next to
   the copy just created, so the comparison that should drop the following copy looks at the wrong pool.
   */
  ghost predicate Repeats(src: seq<Pool>, dst: seq<Pool>, a: Addr) {
    && Bag(src)[a] > 1
    && (Bag(dst)[a] > 1 || (a !in Bag(dst) && RetainedAbove(Bag(src), Bag(dst), a)))
  }

  /** The merged list has distinct addresses exactly when no address repeats in that way. */
  lemma DistinctIffNoRepeat(dst: seq<Pool>, src: seq<Pool>, result: seq<Pool>, untouched: seq<Pool>,
                            inserted: seq<Pool>, removed: seq<Pool>, ignored: seq<Pool>)
    requires IsReset(dst, src, result, untouched, inserted, removed, ignored)
    ensures DistinctAddrs(result) <==> !exists a :: Repeats(src, dst, a)
  {
    DistinctIffBag(result);
    BagConcat(inserted, untouched);
    forall a ensures Bag(result)[a] > 1 <==> Repeats(src, dst, a) {
      assert Bag(result)[a] == InsertedCount(Bag(src), Bag(dst), a) + Min(Bag(src)[a], Bag(dst)[a]);
    }
  }

  lemma DuplicateFreeSource(dst: seq<Pool>, src: seq<Pool>, result: seq<Pool>, untouched: seq<Pool>,
                            inserted: seq<Pool>, removed: seq<Pool>, ignored: seq<Pool>)
    requires IsReset(dst, src, result, untouched, inserted, removed, ignored)
    requires DistinctAddrs(src)
    ensures DistinctAddrs(result) && ignored == []
  {
    DistinctIffBag(src);
    DistinctIffNoRepeat(dst, src, result, untouched, inserted, removed, ignored);
    if ignored != [] {
      InBag(ignored, ignored[0]);
    }
  }

  /** Of a new address the latest given pools are inserted and the earlier ones ignored. */
  lemma LatestInserted(dst: seq<Pool>, src: seq<Pool>, result: seq<Pool>, untouched: seq<Pool>,
                       inserted: seq<Pool>, removed: seq<Pool>, ignored: seq<Pool>, a: Addr)
    requires IsReset(dst, src, result, untouched, inserted, removed, ignored) && a !in Bag(dst)
    ensures |WithAddr(ignored, a)| <= |WithAddr(src, a)|
    ensures multiset(WithAddr(inserted, a)) == multiset(WithAddr(src, a)[|WithAddr(ignored, a)|..])
  {
    hide WithAddr, Bag, IsReset;
    IgnoredLead(dst, src, result, untouched, inserted, removed, ignored, a);
    AddrSizes(dst, src, result, untouched, inserted, removed, ignored, a);
    var n, all := |WithAddr(ignored, a)|, WithAddr(src, a);
    assert all == all[..n] + all[n..];
    assert multiset(all) == multiset(all[..n]) + multiset(all[n..]);
    SameRest(multiset(WithAddr(inserted, a)), multiset(all[..n]), multiset(all[n..]));
  }

  lemma IgnoredLead(dst: seq<Pool>, src: seq<Pool>, result: seq<Pool>, untouched: seq<Pool>,
                    inserted: seq<Pool>, removed: seq<Pool>, ignored: seq<Pool>, a: Addr)
    requires IsReset(dst, src, result, untouched, inserted, removed, ignored)
    ensures Leads(WithAddr(ignored, a), WithAddr(src, a))
  {
    assert Earliest(ignored, src, a);
  }

  lemma AddrSizes(dst: seq<Pool>, src: seq<Pool>, result: seq<Pool>, untouched: seq<Pool>,
                  inserted: seq<Pool>, removed: seq<Pool>, ignored: seq<Pool>, a: Addr)
    requires IsReset(dst, src, result, untouched, inserted, removed, ignored) && a !in Bag(dst)
    ensures multiset(WithAddr(inserted, a)) + multiset(WithAddr(ignored, a)) <= multiset(WithAddr(src, a))
    ensures |WithAddr(inserted, a)| + |WithAddr(ignored, a)| == |WithAddr(src, a)|
  {
    hide WithAddr, Bag, InsertedCount;
    WithAddrSize(inserted, a);
    WithAddrSize(ignored, a);
    WithAddrSize(src, a);
    assert forall p :: multiset(inserted)[p] + multiset(ignored)[p] <= multiset(src)[p];
  }

  lemma SameRest(some: multiset<Pool>, first: multiset<Pool>, rest: multiset<Pool>)
    requires some + first <= first + rest && |some| == |rest|
    ensures some == rest
  {
    forall p ensures some[p] <= rest[p] {
      assert (some + first)[p] <= (first + rest)[p];
    }
    assert |rest - some| == 0;
  }

  const A := Addr("tcp", "a")
  const C := Addr("tcp", "c")

  lemma DuplicateInput()
    ensures A !in Bag([Pool(0, C)]) && Bag([Pool(1, A), Pool(2, A), Pool(3, C)])[A] == 2
    ensures RetainedAbove(Bag([Pool(1, A), Pool(2, A), Pool(3, C)]), Bag([Pool(0, C)]), A)
  {
    assert Addrs([Pool(0, C)]) == [C];
    assert Addrs([Pool(1, A), Pool(2, A), Pool(3, C)]) == [A, A, C];
    assert Before("a", "c");
    assert Less(A, C);
  }

  /** The deduplication promise fails: two new pools at "a" are both inserted next to the retained "c". */
  lemma DuplicateInserted(result: seq<Pool>, untouched: seq<Pool>, inserted: seq<Pool>, removed: seq<Pool>,
                          ignored: seq<Pool>)
    requires IsReset([Pool(0, C)], [Pool(1, A), Pool(2, A), Pool(3, C)],
                     result, untouched, inserted, removed, ignored)
    ensures Bag(inserted)[A] == 2 && !DistinctAddrs(result)
  {
    hide IsReset, Bag, RetainedAbove, Less;
    var dst, src := [Pool(0, C)], [Pool(1, A), Pool(2, A), Pool(3, C)];
    DuplicateInput();
    InsertedAt(dst, src, result, untouched, inserted, removed, ignored, A);
    assert Repeats(src, dst, A);
    DistinctIffNoRepeat(dst, src, result, untouched, inserted, removed, ignored);
  }

  lemma InsertedAt(dst: seq<Pool>, src: seq<Pool>, result: seq<Pool>, untouched: seq<Pool>,
                   inserted: seq<Pool>, removed: seq<Pool>, ignored: seq<Pool>, a: Addr)
    requires IsReset(dst, src, result, untouched, inserted, removed, ignored)
    ensures Bag(inserted)[a] == InsertedCount(Bag(src), Bag(dst), a)
  {
  }
}
