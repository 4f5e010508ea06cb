/**
 The in-place merge behind Cluster.Reset. One array holds the sorted source on the left of `mid` and
 the sorted current peers on the right; five cursors partition it while it is being permuted.

 The cursors split the array into seven regions, recorded by the ghost datatype Merge:

   [0, dp) ignored | [dp, i] source left | (i, cr) matched | [cr, mid) created
   [mid, j] peers left | (j, rm) retained | [rm, n) removed
 */
module ClusterReset {
  import opened Common
  import opened Peers

  datatype Merge = Merge(
    ignored: seq<Pool>, su: nat, matched: seq<Pool>, created: seq<Pool>,
    du: nat, retained: seq<Pool>, removed: seq<Pool>)

  // ---------------------------------------------------------------------------------------------
  // What the merge computes, address by address
  // ---------------------------------------------------------------------------------------------

  /** Some address of both lists is greater than `a`. */
  ghost predicate RetainedAbove(S: multiset<Addr>, D: multiset<Addr>, a: Addr) {
    exists b :: b in S && b in D && Less(a, b)
  }

  /** How many pools with address `a` are inserted, given the source and the current addresses. */
  ghost function InsertedCount(S: multiset<Addr>, D: multiset<Addr>, a: Addr): nat {
    if a in D || a !in S then 0
    else if RetainedAbove(S, D, a) then S[a]
    else 1
  }

  /** The whole input-output relation of the merge. */
  ghost predicate IsReset(dst: seq<Pool>, src: seq<Pool>, result: seq<Pool>, untouched: seq<Pool>,
                          inserted: seq<Pool>, removed: seq<Pool>, ignored: seq<Pool>)
  {
    && result == inserted + untouched
    && multiset(untouched) + multiset(removed) == multiset(dst)
    && multiset(inserted) + multiset(ignored) <= multiset(src)
    && (forall a :: Bag(untouched)[a] == Min(Bag(src)[a], Bag(dst)[a]))
    && (forall a :: Bag(inserted)[a] == InsertedCount(Bag(src), Bag(dst), a))
    && (forall a :: Bag(ignored)[a] == Bag(src)[a] - Bag(inserted)[a] - Bag(untouched)[a])
    && (forall a :: Earliest(ignored, src, a))
  }

  /** The pools of `some` with address `a` are the first ones of `all` with it. */
  ghost predicate Earliest(some: seq<Pool>, all: seq<Pool>, a: Addr) {
    Leads(WithAddr(some, a), WithAddr(all, a))
  }

  /** `some` is made of the first elements of `all`. */
  ghost predicate Leads(some: seq<Pool>, all: seq<Pool>) {
    |some| <= |all| && multiset(some) == multiset(all[..|some|])
  }

  // ---------------------------------------------------------------------------------------------
  // Invariant of the two loops
  // ---------------------------------------------------------------------------------------------

  ghost function Layout(m: Merge, ss: seq<Pool>, dd: seq<Pool>): seq<Pool>
    requires m.su <= |ss| && m.du <= |dd|
  {
    m.ignored + ss[..m.su] + m.matched + m.created + dd[..m.du] + m.retained + m.removed
  }

  /** The source pool most recently moved out of the unprocessed part: the element at ps[i+1]. */
  ghost predicate LastHas(m: Merge, a: Addr) {
    m.matched + m.created != [] && (m.matched + m.created)[0].addr == a
  }

  ghost predicate Shape(m: Merge, ss: seq<Pool>, dd: seq<Pool>) {
    && m.su <= |ss| && m.du <= |dd|
    && Sorted(ss) && Sorted(dd)
    && multiset(m.ignored) + multiset(m.matched) + multiset(m.created) == multiset(ss[m.su..])
    && multiset(m.retained) + multiset(m.removed) == multiset(dd[m.du..])
  }

  ghost predicate Ordered(m: Merge, ss: seq<Pool>, dd: seq<Pool>)
    requires m.su <= |ss| && m.du <= |dd|
  {
    && (forall k, l :: 0 <= k < m.su && m.du <= l < |dd| ==>
          Less(ss[k].addr, dd[l].addr) || (ss[k].addr == dd[l].addr && LastHas(m, dd[l].addr)))
    && (forall k, l :: m.su <= k < |ss| && 0 <= l < m.du ==> !Less(ss[k].addr, dd[l].addr))
    && (forall k :: m.su <= k < |ss| && ss[k].addr in Bag(dd) ==> m.matched != [])
    && (m.matched == [] && m.su < |ss| ==> LastHas(m, ss[m.su].addr))
    && (forall k :: 0 <= k < |m.matched| ==> m.matched[k].addr in Bag(dd))
  }

  ghost predicate Counted(m: Merge, ss: seq<Pool>, dd: seq<Pool>)
    requires m.su <= |ss| && m.du <= |dd|
  {
    var A, B, D := Bag(ss[m.su..]), Bag(dd[m.du..]), Bag(dd);
    && (forall a :: Bag(m.created)[a] == InsertedCount(A, D, a))
    && (forall a :: Bag(m.retained)[a] == Bag(m.matched)[a] == Min(A[a], B[a]))
    && (forall k :: 0 <= k < m.su ==> B[ss[k].addr] <= A[ss[k].addr])
    && (forall l :: 0 <= l < m.du ==> A[dd[l].addr] <= B[dd[l].addr])
  }

  ghost predicate Inv(m: Merge, ss: seq<Pool>, dd: seq<Pool>) {
    Shape(m, ss, dd) && Ordered(m, ss, dd) && Counted(m, ss, dd)
  }

  // ---------------------------------------------------------------------------------------------
  // The four moves
  // ---------------------------------------------------------------------------------------------

  /** Swapping the element below a block with the last element of the block rotates the block. */
  ghost function Rotated(s: seq<Pool>): (r: seq<Pool>)
    ensures multiset(r) == multiset(s)
    ensures |r| == |s|
    ensures forall k :: 0 <= k < |r| ==> r[k] in s
  {
    if s == [] then [] else
      assert s == s[..|s| - 1] + [s[|s| - 1]];
      [s[|s| - 1]] + s[..|s| - 1]
  }

  ghost function RemoveStep(m: Merge, dd: seq<Pool>): Merge
    requires 0 < m.du <= |dd|
  {
    m.(du := m.du - 1, retained := Rotated(m.retained), removed := [dd[m.du - 1]] + m.removed)
  }

  ghost function CreateStep(m: Merge, ss: seq<Pool>): Merge
    requires 0 < m.su <= |ss|
  {
    m.(su := m.su - 1, matched := Rotated(m.matched), created := [ss[m.su - 1]] + m.created)
  }

  ghost function DedupStep(m: Merge, ss: seq<Pool>): Merge
    requires 0 < m.su <= |ss|
  {
    m.(su := m.su - 1, ignored := m.ignored + [ss[m.su - 1]])
  }

  ghost function MatchStep(m: Merge, ss: seq<Pool>, dd: seq<Pool>): Merge
    requires 0 < m.su <= |ss| && 0 < m.du <= |dd|
  {
    m.(su := m.su - 1, matched := [ss[m.su - 1]] + m.matched,
       du := m.du - 1, retained := [dd[m.du - 1]] + m.retained)
  }

  lemma SuffixBag(ps: seq<Pool>, u: nat)
    requires 0 < u <= |ps|
    ensures ps[u - 1..] == [ps[u - 1]] + ps[u..]
    ensures multiset(ps[u - 1..]) == multiset{ps[u - 1]} + multiset(ps[u..])
    ensures Bag(ps[u - 1..]) == multiset{ps[u - 1].addr} + Bag(ps[u..])
  {
    assert ps[u - 1..] == [ps[u - 1]] + ps[u..];
    BagCons(ps[u - 1], ps[u..]);
  }

  /** The same, address by address. */
  lemma SuffixCount(ps: seq<Pool>, u: nat)
    requires 0 < u <= |ps|
    ensures forall a :: Bag(ps[u - 1..])[a] == Bag(ps[u..])[a] + One(ps[u - 1].addr, a)
  {
    SuffixBag(ps, u);
  }

  lemma ConsCount(x: Pool, ps: seq<Pool>)
    ensures forall a :: Bag([x] + ps)[a] == Bag(ps)[a] + One(x.addr, a)
  {
    BagCons(x, ps);
  }

  ghost function One(x: Addr, a: Addr): nat { if x == a then 1 else 0 }

  lemma SuffixHas(ps: seq<Pool>, u: nat, a: Addr)
    requires u <= |ps|
    ensures a in Bag(ps[u..]) <==> exists k :: u <= k < |ps| && ps[k].addr == a
  {
    BagHas(ps[u..], a);
    if k :| u <= k < |ps| && ps[k].addr == a {
      assert ps[u..][k - u].addr == a;
    }
    if k :| 0 <= k < |ps[u..]| && ps[u..][k].addr == a {
      assert ps[u + k].addr == a;
    }
  }

  lemma RemoveKeeps(m: Merge, ss: seq<Pool>, dd: seq<Pool>)
    requires Inv(m, ss, dd) && m.du > 0
    requires m.su > 0 ==> Less(ss[m.su - 1].addr, dd[m.du - 1].addr)
    ensures Inv(RemoveStep(m, dd), ss, dd)
  {
    SourceBelow(m, ss, dd[m.du - 1].addr);
    RemoveShape(m, ss, dd);
    RemoveOrdered(m, ss, dd);
    RemoveCounted(m, ss, dd);
  }

  lemma RemoveShape(m: Merge, ss: seq<Pool>, dd: seq<Pool>)
    requires Shape(m, ss, dd) && m.du > 0
    ensures Shape(RemoveStep(m, dd), ss, dd)
  {
    hide Sorted;
    SuffixBag(dd, m.du);
  }

  /** Every unprocessed source address is below the peer that is being removed. */
  lemma SourceBelow(m: Merge, ss: seq<Pool>, y: Addr)
    requires m.su <= |ss| && Sorted(ss)
    requires m.su > 0 ==> Less(ss[m.su - 1].addr, y)
    ensures forall k :: 0 <= k < m.su ==> Less(ss[k].addr, y) && ss[k].addr != y
  {
    forall k | 0 <= k < m.su ensures Less(ss[k].addr, y) && ss[k].addr != y {
      var last := ss[m.su - 1].addr;
      LessTrichotomy(last, ss[k].addr);
      if ss[k].addr != last {
        LessTransitive(ss[k].addr, last, y);
      }
      LessTrichotomy(ss[k].addr, y);
    }
  }

  lemma RemoveOrdered(m: Merge, ss: seq<Pool>, dd: seq<Pool>)
    requires m.su <= |ss| && 0 < m.du <= |dd| && Ordered(m, ss, dd)
    requires forall k :: 0 <= k < m.su ==> Less(ss[k].addr, dd[m.du - 1].addr)
    ensures Ordered(RemoveStep(m, dd), ss, dd)
  {
  }

  lemma RemoveCounted(m: Merge, ss: seq<Pool>, dd: seq<Pool>)
    requires m.su <= |ss| && 0 < m.du <= |dd| && Counted(m, ss, dd)
    requires forall k :: 0 <= k < m.su ==> ss[k].addr != dd[m.du - 1].addr
    ensures Counted(RemoveStep(m, dd), ss, dd)
  {
    // No unprocessed source pool shares the removed address, so its retained count is settled.
    SuffixCount(dd, m.du);
    BagOfPermutation(Rotated(m.retained), m.retained);
  }

  lemma MatchKeeps(m: Merge, ss: seq<Pool>, dd: seq<Pool>)
    requires Inv(m, ss, dd) && m.su > 0 && m.du > 0
    requires ss[m.su - 1].addr == dd[m.du - 1].addr
    ensures Inv(MatchStep(m, ss, dd), ss, dd)
  {
    BagHas(dd, dd[m.du - 1].addr);
    MatchInserted(m, ss, dd);
    MatchShape(m, ss, dd);
    MatchOrdered(m, ss, dd);
    MatchCounted(m, ss, dd);
  }

  lemma MatchInserted(m: Merge, ss: seq<Pool>, dd: seq<Pool>)
    requires Inv(m, ss, dd) && m.su > 0 && ss[m.su - 1].addr in Bag(dd)
    ensures forall a :: InsertedCount(Bag(ss[m.su - 1..]), Bag(dd), a) == InsertedCount(Bag(ss[m.su..]), Bag(dd), a)
  {
    InsertedGrows(m, ss, dd);
  }

  lemma MatchShape(m: Merge, ss: seq<Pool>, dd: seq<Pool>)
    requires Shape(m, ss, dd) && m.su > 0 && m.du > 0
    ensures Shape(MatchStep(m, ss, dd), ss, dd)
  {
    hide Sorted;
    SuffixBag(ss, m.su);
    SuffixBag(dd, m.du);
  }

  lemma MatchOrdered(m: Merge, ss: seq<Pool>, dd: seq<Pool>)
    requires 0 < m.su <= |ss| && 0 < m.du <= |dd| && Sorted(ss) && Sorted(dd) && Ordered(m, ss, dd)
    requires ss[m.su - 1].addr == dd[m.du - 1].addr && dd[m.du - 1].addr in Bag(dd)
    ensures Ordered(MatchStep(m, ss, dd), ss, dd)
  {
    var x, y, m' := ss[m.su - 1], dd[m.du - 1], MatchStep(m, ss, dd);
    assert (m'.matched + m'.created)[0] == x;
    forall k, l | 0 <= k < m'.su && m'.du <= l < |dd|
      ensures Less(ss[k].addr, dd[l].addr) || (ss[k].addr == dd[l].addr && LastHas(m', dd[l].addr))
    {
      LessTrichotomy(ss[k].addr, x.addr);
      LessTrichotomy(y.addr, dd[l].addr);
      if Less(ss[k].addr, x.addr) && Less(y.addr, dd[l].addr) {
        LessTransitive(ss[k].addr, x.addr, dd[l].addr);
      }
    }
    forall k, l | m'.su <= k < |ss| && 0 <= l < m'.du ensures !Less(ss[k].addr, dd[l].addr) {
      assert !Less(y.addr, dd[l].addr);
    }
  }

  lemma MatchCounted(m: Merge, ss: seq<Pool>, dd: seq<Pool>)
    requires 0 < m.su <= |ss| && 0 < m.du <= |dd| && Counted(m, ss, dd)
    requires ss[m.su - 1].addr == dd[m.du - 1].addr
    requires forall a :: InsertedCount(Bag(ss[m.su - 1..]), Bag(dd), a) == InsertedCount(Bag(ss[m.su..]), Bag(dd), a)
    ensures Counted(MatchStep(m, ss, dd), ss, dd)
  {
    hide InsertedCount, RetainedAbove, Bag;
    SuffixCount(ss, m.su);
    SuffixCount(dd, m.du);
    ConsCount(ss[m.su - 1], m.matched);
    ConsCount(dd[m.du - 1], m.retained);
  }

  /** Processing one more source pool changes the inserted count of its own address only. */
  lemma InsertedGrows(m: Merge, ss: seq<Pool>, dd: seq<Pool>)
    requires Inv(m, ss, dd) && m.su > 0
    ensures var x := ss[m.su - 1].addr;
      var A, A', D := Bag(ss[m.su..]), Bag(ss[m.su - 1..]), Bag(dd);
      forall a :: InsertedCount(A', D, a) == InsertedCount(A, D, a) +
        (if a == x && a !in D && (m.matched != [] || a !in A) then 1 else 0)
  {
    var x := ss[m.su - 1].addr;
    var A, A', D := Bag(ss[m.su..]), Bag(ss[m.su - 1..]), Bag(dd);
    SuffixBag(ss, m.su);
    forall a ensures InsertedCount(A', D, a) == InsertedCount(A, D, a) +
        (if a == x && a !in D && (m.matched != [] || a !in A) then 1 else 0)
    {
      if a !in D && a in A' {
        AboveUnchanged(m, ss, dd, a);
        if a == x {
          MatchedMeansAbove(m, ss, dd);
        }
      }
    }
  }

  lemma AboveUnchanged(m: Merge, ss: seq<Pool>, dd: seq<Pool>, a: Addr)
    requires Inv(m, ss, dd) && m.su > 0 && a in Bag(ss[m.su - 1..])
    ensures RetainedAbove(Bag(ss[m.su - 1..]), Bag(dd), a) == RetainedAbove(Bag(ss[m.su..]), Bag(dd), a)
  {
    var x := ss[m.su - 1].addr;
    hide Less, Before;
    LessIsTotalOrder();
    SuffixBag(ss, m.su);
    SuffixHas(ss, m.su - 1, a);
    var k :| m.su - 1 <= k < |ss| && ss[k].addr == a;
    assert !Less(ss[k].addr, x);
  }

  /** For an address that is not a current peer: something was matched iff a retained address is above. */
  lemma MatchedMeansAbove(m: Merge, ss: seq<Pool>, dd: seq<Pool>)
    requires Inv(m, ss, dd) && m.su > 0 && ss[m.su - 1].addr !in Bag(dd)
    ensures RetainedAbove(Bag(ss[m.su..]), Bag(dd), ss[m.su - 1].addr) <==> m.matched != []
  {
    var x, A := ss[m.su - 1].addr, Bag(ss[m.su..]);
    hide Less, Before;
    LessIsTotalOrder();
    if m.matched != [] {
      var b := m.matched[0].addr;
      BagHas(m.matched, b);
      assert b in A && b in Bag(dd);
      SuffixHas(ss, m.su, b);
      var k :| m.su <= k < |ss| && ss[k].addr == b;
      assert !Less(ss[k].addr, x);
      assert Less(x, b);
    }
    if RetainedAbove(A, Bag(dd), x) {
      var b :| b in A && b in Bag(dd) && Less(x, b);
      SuffixHas(ss, m.su, b);
    }
  }

  lemma DedupKeeps(m: Merge, ss: seq<Pool>, dd: seq<Pool>)
    requires Inv(m, ss, dd) && m.su > 0 && LastHas(m, ss[m.su - 1].addr)
    requires m.du > 0 ==> Less(dd[m.du - 1].addr, ss[m.su - 1].addr)
    ensures Inv(DedupStep(m, ss), ss, dd)
  {
    LastIsProcessed(m, ss, dd);
    SourceAbove(m, ss, dd);
    DedupInserted(m, ss, dd);
    DedupShape(m, ss, dd);
    DedupOrdered(m, ss, dd);
    DedupCounted(m, ss, dd);
  }

  lemma DedupInserted(m: Merge, ss: seq<Pool>, dd: seq<Pool>)
    requires Inv(m, ss, dd) && m.su > 0 && LastHas(m, ss[m.su - 1].addr)
    ensures forall a :: InsertedCount(Bag(ss[m.su - 1..]), Bag(dd), a) == InsertedCount(Bag(ss[m.su..]), Bag(dd), a)
  {
    LastIsProcessed(m, ss, dd);
    InsertedGrows(m, ss, dd);
  }

  lemma DedupShape(m: Merge, ss: seq<Pool>, dd: seq<Pool>)
    requires Shape(m, ss, dd) && m.su > 0
    ensures Shape(DedupStep(m, ss), ss, dd)
  {
    hide Sorted;
    SuffixBag(ss, m.su);
  }

  lemma DedupOrdered(m: Merge, ss: seq<Pool>, dd: seq<Pool>)
    requires 0 < m.su <= |ss| && m.du <= |dd|
    requires Ordered(m, ss, dd) && LastHas(m, ss[m.su - 1].addr)
    requires forall k, l :: m.su - 1 <= k < |ss| && 0 <= l < m.du ==> !Less(ss[k].addr, dd[l].addr)
    requires ss[m.su - 1].addr in Bag(dd) ==> m.matched != []
    ensures Ordered(DedupStep(m, ss), ss, dd)
  {
  }

  /** Moving one more source pool out keeps every processed source address at or above the peers left. */
  lemma SourceAbove(m: Merge, ss: seq<Pool>, dd: seq<Pool>)
    requires Shape(m, ss, dd) && Ordered(m, ss, dd) && m.su > 0
    requires m.du > 0 ==> Less(dd[m.du - 1].addr, ss[m.su - 1].addr)
    ensures forall k, l :: m.su - 1 <= k < |ss| && 0 <= l < m.du ==> !Less(ss[k].addr, dd[l].addr)
    ensures forall l :: 0 <= l < m.du ==> dd[l].addr != ss[m.su - 1].addr
  {
    var x := ss[m.su - 1].addr;
    NoPeerLeft(m, ss, dd);
    forall l | 0 <= l < m.du ensures !Less(x, dd[l].addr) && dd[l].addr != x {
      LessTrichotomy(x, dd[l].addr);
    }
  }

  lemma DedupCounted(m: Merge, ss: seq<Pool>, dd: seq<Pool>)
    requires 0 < m.su <= |ss| && m.du <= |dd| && Counted(m, ss, dd)
    requires forall l :: 0 <= l < m.du ==> dd[l].addr != ss[m.su - 1].addr
    requires forall a :: InsertedCount(Bag(ss[m.su - 1..]), Bag(dd), a) == InsertedCount(Bag(ss[m.su..]), Bag(dd), a)
    ensures Counted(DedupStep(m, ss), ss, dd)
  {
    hide InsertedCount, RetainedAbove, Bag;
    SuffixCount(ss, m.su);
  }

  /** The element the program compares with is itself a processed source pool. */
  lemma LastIsProcessed(m: Merge, ss: seq<Pool>, dd: seq<Pool>)
    requires Inv(m, ss, dd) && m.su > 0 && LastHas(m, ss[m.su - 1].addr)
    ensures ss[m.su - 1].addr in Bag(ss[m.su..])
    ensures ss[m.su - 1].addr !in Bag(dd) ==> m.matched == []
    ensures ss[m.su - 1].addr in Bag(dd) ==> m.matched != []
  {
    var x, last := ss[m.su - 1].addr, (m.matched + m.created)[0];
    BagOfLast(m, ss, dd);
    if m.matched == [] {
      BagHas(m.created, x);
      assert InsertedCount(Bag(ss[m.su..]), Bag(dd), x) > 0;
    }
  }

  lemma BagOfLast(m: Merge, ss: seq<Pool>, dd: seq<Pool>)
    requires Shape(m, ss, dd) && m.matched + m.created != []
    ensures (m.matched + m.created)[0].addr in Bag(ss[m.su..])
  {
    var last := (m.matched + m.created)[0];
    assert last in multiset(ss[m.su..]);
    var k :| 0 <= k < |ss[m.su..]| && ss[m.su..][k] == last;
    BagHas(ss[m.su..], last.addr);
  }

  /** When the source address is above every unprocessed peer, its retained count is settled. */
  lemma NoPeerLeft(m: Merge, ss: seq<Pool>, dd: seq<Pool>)
    requires Shape(m, ss, dd) && m.su > 0
    requires m.du > 0 ==> Less(dd[m.du - 1].addr, ss[m.su - 1].addr)
    ensures forall l :: 0 <= l < m.du ==> Less(dd[l].addr, ss[m.su - 1].addr)
  {
    hide Less, Before;
    LessIsTotalOrder();
    forall l | 0 <= l < m.du ensures Less(dd[l].addr, ss[m.su - 1].addr) {
      assert !Less(dd[m.du - 1].addr, dd[l].addr);
    }
  }

  lemma CreateKeeps(m: Merge, ss: seq<Pool>, dd: seq<Pool>)
    requires Inv(m, ss, dd) && m.su > 0 && !LastHas(m, ss[m.su - 1].addr)
    requires m.du > 0 ==> Less(dd[m.du - 1].addr, ss[m.su - 1].addr)
    ensures Inv(CreateStep(m, ss), ss, dd)
  {
    CreatedIsNew(m, ss, dd);
    SourceAbove(m, ss, dd);
    SourceBelowPeers(m, ss, dd);
    CreateInserted(m, ss, dd);
    CreateShape(m, ss, dd);
    CreateOrdered(m, ss, dd);
    CreateCounted(m, ss, dd);
  }

  lemma CreateInserted(m: Merge, ss: seq<Pool>, dd: seq<Pool>)
    requires Inv(m, ss, dd) && m.su > 0 && !LastHas(m, ss[m.su - 1].addr)
    requires m.du > 0 ==> Less(dd[m.du - 1].addr, ss[m.su - 1].addr)
    ensures forall a :: InsertedCount(Bag(ss[m.su - 1..]), Bag(dd), a)
                     == InsertedCount(Bag(ss[m.su..]), Bag(dd), a) + One(ss[m.su - 1].addr, a)
  {
    CreatedIsNew(m, ss, dd);
    InsertedGrows(m, ss, dd);
  }

  lemma CreateShape(m: Merge, ss: seq<Pool>, dd: seq<Pool>)
    requires Shape(m, ss, dd) && m.su > 0
    ensures Shape(CreateStep(m, ss), ss, dd)
  {
    hide Sorted;
    SuffixBag(ss, m.su);
  }

  lemma CreateCounted(m: Merge, ss: seq<Pool>, dd: seq<Pool>)
    requires 0 < m.su <= |ss| && m.du <= |dd| && Counted(m, ss, dd)
    requires forall l :: 0 <= l < m.du ==> dd[l].addr != ss[m.su - 1].addr
    requires forall a :: InsertedCount(Bag(ss[m.su - 1..]), Bag(dd), a)
                      == InsertedCount(Bag(ss[m.su..]), Bag(dd), a) + One(ss[m.su - 1].addr, a)
    ensures Counted(CreateStep(m, ss), ss, dd)
  {
    hide InsertedCount, RetainedAbove, Rotated, Bag;
    SuffixCount(ss, m.su);
    ConsCount(ss[m.su - 1], m.created);
    BagOfPermutation(Rotated(m.matched), m.matched);
  }

  lemma CreatedIsNew(m: Merge, ss: seq<Pool>, dd: seq<Pool>)
    requires Inv(m, ss, dd) && m.su > 0 && !LastHas(m, ss[m.su - 1].addr)
    requires m.du > 0 ==> Less(dd[m.du - 1].addr, ss[m.su - 1].addr)
    ensures ss[m.su - 1].addr !in Bag(dd)
    ensures m.matched == [] ==> ss[m.su - 1].addr !in Bag(ss[m.su..])
  {
    var x := ss[m.su - 1].addr;
    NoPeerLeft(m, ss, dd);
    BagHas(dd, x);
    SuffixHas(ss, m.su, x);
    hide Less, Bag, Counted;
    LessIsTotalOrder();
    if m.matched == [] && m.su < |ss| {
      // The last processed address differs from x, and everything processed is at or above it.
      forall k | m.su <= k < |ss| ensures ss[k].addr != x {
        assert k > m.su ==> !Less(ss[k].addr, ss[m.su].addr);
        assert !Less(ss[m.su].addr, x);
      }
    }
  }

  lemma CreateOrdered(m: Merge, ss: seq<Pool>, dd: seq<Pool>)
    requires 0 < m.su <= |ss| && m.du <= |dd| && Ordered(m, ss, dd)
    requires ss[m.su - 1].addr !in Bag(dd)
    requires forall k, l :: m.su - 1 <= k < |ss| && 0 <= l < m.du ==> !Less(ss[k].addr, dd[l].addr)
    requires forall k, l :: 0 <= k < m.su && m.du <= l < |dd| ==> Less(ss[k].addr, dd[l].addr)
    ensures Ordered(CreateStep(m, ss), ss, dd)
  {
    var m' := CreateStep(m, ss);
    assert m.matched == [] ==> (m'.matched + m'.created)[0] == ss[m.su - 1];
  }

  lemma SourceBelowPeers(m: Merge, ss: seq<Pool>, dd: seq<Pool>)
    requires Shape(m, ss, dd) && Ordered(m, ss, dd) && m.su > 0 && !LastHas(m, ss[m.su - 1].addr)
    ensures forall k, l :: 0 <= k < m.su && m.du <= l < |dd| ==> Less(ss[k].addr, dd[l].addr)
  {
    forall l | m.du <= l < |dd| ensures forall k :: 0 <= k < m.su ==> Less(ss[k].addr, dd[l].addr) {
      SourceBelow(m, ss, dd[l].addr);
    }
  }

  // ---------------------------------------------------------------------------------------------
  // Which copies are ignored
  // ---------------------------------------------------------------------------------------------

  /** Source pools are processed from the right, and once one is ignored all its earlier copies are. */
  ghost predicate EarlierIgnored(m: Merge, ss: seq<Pool>) {
    m.su <= |ss| && forall a :: Earliest(m.ignored, ss[m.su..], a)
  }

  lemma SuffixWithAddr(ss: seq<Pool>, u: nat, a: Addr)
    requires 0 < u <= |ss|
    ensures WithAddr(ss[u - 1..], a) == (if ss[u - 1].addr == a then [ss[u - 1]] else []) + WithAddr(ss[u..], a)
  {
    assert ss[u - 1..] == [ss[u - 1]] + ss[u..];
    WithAddrConcat([ss[u - 1]], ss[u..], a);
    WithAddrSnoc([], ss[u - 1], a);
    assert [] + [ss[u - 1]] == [ss[u - 1]];
  }

  /** A pool that is not ignored has no ignored copy yet. */
  lemma KeptEarlier(m: Merge, ss: seq<Pool>, m': Merge)
    requires EarlierIgnored(m, ss) && m.su > 0 && m'.ignored == m.ignored && m'.su == m.su - 1
    requires Bag(m.ignored)[ss[m.su - 1].addr] == 0
    ensures EarlierIgnored(m', ss)
  {
    hide WithAddr, Leads, Bag;
    forall a ensures Earliest(m'.ignored, ss[m'.su..], a) {
      assert Earliest(m.ignored, ss[m.su..], a);
      SuffixWithAddr(ss, m.su, a);
      WithAddrSize(m.ignored, a);
      NoneLead(WithAddr(ss[m'.su..], a));
      assert [] + WithAddr(ss[m.su..], a) == WithAddr(ss[m.su..], a);
    }
  }

  lemma NoneLead(all: seq<Pool>)
    ensures Leads([], all)
  {
  }

  lemma OneMoreLeads(some: seq<Pool>, all: seq<Pool>, x: Pool)
    requires Leads(some, all)
    ensures Leads(some + [x], [x] + all)
  {
    assert ([x] + all)[..|some| + 1] == [x] + all[..|some|];
  }

  lemma DedupEarlier(m: Merge, ss: seq<Pool>)
    requires EarlierIgnored(m, ss) && m.su > 0
    ensures EarlierIgnored(DedupStep(m, ss), ss)
  {
    hide WithAddr, Leads;
    var x, m' := ss[m.su - 1], DedupStep(m, ss);
    forall a ensures Earliest(m'.ignored, ss[m'.su..], a) {
      assert Earliest(m.ignored, ss[m.su..], a);
      SuffixWithAddr(ss, m.su, a);
      WithAddrSnoc(m.ignored, x, a);
      var some, all := WithAddr(m.ignored, a), WithAddr(ss[m.su..], a);
      OneMoreLeads(some, all, x);
      assert some + [] == some && [] + all == all;
    }
  }

  lemma IgnoredCount(m: Merge, ss: seq<Pool>, dd: seq<Pool>, a: Addr)
    requires Shape(m, ss, dd)
    ensures Bag(m.ignored)[a] + Bag(m.matched)[a] + Bag(m.created)[a] == Bag(ss[m.su..])[a]
  {
    assert multiset(m.ignored + m.matched + m.created) == multiset(ss[m.su..]);
    BagOfPermutation(m.ignored + m.matched + m.created, ss[m.su..]);
    BagConcat(m.ignored + m.matched, m.created);
    BagConcat(m.ignored, m.matched);
  }

  lemma CreateEarlier(m: Merge, ss: seq<Pool>, dd: seq<Pool>)
    requires Inv(m, ss, dd) && EarlierIgnored(m, ss) && m.su > 0 && !LastHas(m, ss[m.su - 1].addr)
    requires m.du > 0 ==> Less(dd[m.du - 1].addr, ss[m.su - 1].addr)
    ensures EarlierIgnored(CreateStep(m, ss), ss)
  {
    hide Less, LastHas, EarlierIgnored;
    CreatedIsNew(m, ss, dd);
    MatchedMeansAbove(m, ss, dd);
    IgnoredCount(m, ss, dd, ss[m.su - 1].addr);
    KeptEarlier(m, ss, CreateStep(m, ss));
  }

  lemma MatchEarlier(m: Merge, ss: seq<Pool>, dd: seq<Pool>)
    requires Inv(m, ss, dd) && EarlierIgnored(m, ss) && m.su > 0 && m.du > 0
    requires ss[m.su - 1].addr == dd[m.du - 1].addr
    ensures EarlierIgnored(MatchStep(m, ss, dd), ss)
  {
    hide EarlierIgnored, InsertedCount;
    IgnoredCount(m, ss, dd, ss[m.su - 1].addr);
    KeptEarlier(m, ss, MatchStep(m, ss, dd));
  }

  lemma RemoveEarlier(m: Merge, ss: seq<Pool>, dd: seq<Pool>)
    requires EarlierIgnored(m, ss) && 0 < m.du <= |dd|
    ensures EarlierIgnored(RemoveStep(m, dd), ss)
  {
  }

  lemma FinishEarlier(src: seq<Pool>, m: Merge)
    requires EarlierIgnored(m, StableSort(src)) && m.su == 0
    ensures forall a :: Earliest(m.ignored, src, a)
  {
    hide WithAddr, Leads, StableSort;
    assert StableSort(src)[0..] == StableSort(src);
    forall a ensures Earliest(m.ignored, src, a) {
      assert Earliest(m.ignored, StableSort(src), a);
      SortIsStable(src, a);
    }
  }

  lemma StartEarlier(ss: seq<Pool>, n: nat)
    ensures EarlierIgnored(Merge([], |ss|, [], [], n, [], []), ss)
  {
  }

  // ---------------------------------------------------------------------------------------------
  // The moves as array operations
  // ---------------------------------------------------------------------------------------------

  /** The cursors of the program, read off the regions. */
  ghost predicate At(m: Merge, mid: int, dp: int, i: int, cr: int, j: int, rm: int) {
    && dp == |m.ignored| && i == dp + m.su - 1
    && cr == i + 1 + |m.matched| && mid == cr + |m.created|
    && j == mid + m.du - 1 && rm == j + 1 + |m.retained|
  }

  ghost function Swapped(s: seq<Pool>, a: int, b: int): seq<Pool>
    requires 0 <= a < |s| && 0 <= b < |s|
  {
    s[a := s[b]][b := s[a]]
  }

  lemma RemoveLayout(m: Merge, ss: seq<Pool>, dd: seq<Pool>, s: seq<Pool>, j: int, rm: int)
    requires m.su <= |ss| && 0 < m.du <= |dd| && s == Layout(m, ss, dd)
    requires j == |m.ignored| + m.su + |m.matched| + |m.created| + m.du - 1 && rm == j + 1 + |m.retained|
    ensures Swapped(s, rm - 1, j) == Layout(RemoveStep(m, dd), ss, dd)
  {
  }

  lemma CreateLayout(m: Merge, ss: seq<Pool>, dd: seq<Pool>, s: seq<Pool>, i: int, cr: int)
    requires 0 < m.su <= |ss| && m.du <= |dd| && s == Layout(m, ss, dd)
    requires i == |m.ignored| + m.su - 1 && cr == i + 1 + |m.matched|
    ensures Swapped(s, cr - 1, i) == Layout(CreateStep(m, ss), ss, dd)
  {
  }

  /** The shift of the dedup step: ps[dp..i) moves up by one and ps[i] lands at dp. */
  ghost function Shifted(s: seq<Pool>, dp: int, i: int): seq<Pool>
    requires 0 <= dp <= i < |s|
  {
    s[..dp] + [s[i]] + s[dp..i] + s[i + 1..]
  }

  lemma DedupLayout(m: Merge, ss: seq<Pool>, dd: seq<Pool>, s: seq<Pool>, dp: int, i: int)
    requires 0 < m.su <= |ss| && m.du <= |dd| && s == Layout(m, ss, dd)
    requires dp == |m.ignored| && i == dp + m.su - 1
    ensures Shifted(s, dp, i) == Layout(DedupStep(m, ss), ss, dd)
  {
    hide Shifted;
    var x, q := ss[m.su - 1], m.matched + m.created + dd[..m.du] + m.retained + m.removed;
    var p := ss[..m.su - 1];
    assert ss[..m.su] == p + [x];
    assert s == m.ignored + p + [x] + q;
    ShiftedBlock(m.ignored, p, x, q);
    assert Layout(DedupStep(m, ss), ss, dd) == m.ignored + [x] + p + q;
  }

  lemma ShiftedBlock(a: seq<Pool>, p: seq<Pool>, x: Pool, q: seq<Pool>)
    ensures Shifted(a + p + [x] + q, |a|, |a| + |p|) == a + [x] + p + q
  {
  }

  lemma MatchLayout(m: Merge, ss: seq<Pool>, dd: seq<Pool>)
    requires 0 < m.su <= |ss| && 0 < m.du <= |dd|
    ensures Layout(MatchStep(m, ss, dd), ss, dd) == Layout(m, ss, dd)
  {
  }

  /** Where the program finds what it compares. */
  lemma LayoutAt(m: Merge, ss: seq<Pool>, dd: seq<Pool>, s: seq<Pool>,
                 mid: int, dp: int, i: int, cr: int, j: int, rm: int)
    requires m.su <= |ss| && m.du <= |dd| && s == Layout(m, ss, dd) && At(m, mid, dp, i, cr, j, rm)
    ensures 0 <= dp <= i + 1 <= cr <= mid <= j + 1 <= rm <= |s|
    ensures m.su > 0 ==> s[i] == ss[m.su - 1]
    ensures m.du > 0 ==> s[j] == dd[m.du - 1]
    ensures i < mid - 1 <==> m.matched + m.created != []
    ensures i < mid - 1 ==> s[i + 1] == (m.matched + m.created)[0]
    ensures s[cr..mid] == m.created && s[mid + m.du..rm] == m.retained
    ensures s[rm..] == m.removed && s[..dp] == m.ignored
  {
  }

  lemma Start(ss: seq<Pool>, dd: seq<Pool>)
    requires Sorted(ss) && Sorted(dd)
    ensures Inv(Merge([], |ss|, [], [], |dd|, [], []), ss, dd)
    ensures ss + dd == Layout(Merge([], |ss|, [], [], |dd|, [], []), ss, dd)
  {
    hide RetainedAbove, Less, Bag;
    BagOfNone();
    assert ss[|ss|..] == [] && dd[|dd|..] == [];
  }

  lemma BagOfNone()
    ensures Bag([]) == multiset{}
  {
    assert Addrs([]) == [];
  }

  lemma Finish(src: seq<Pool>, dst: seq<Pool>, m: Merge)
    requires Inv(m, StableSort(src), StableSort(dst)) && m.su == 0 && m.du == 0
    requires EarlierIgnored(m, StableSort(src))
    ensures IsReset(dst, src, m.created + m.retained, m.retained, m.created, m.removed, m.ignored)
  {
    hide EarlierIgnored, Earliest, StableSort, InsertedCount, Bag, Ordered;
    var ss, dd := StableSort(src), StableSort(dst);
    assert ss[0..] == ss && dd[0..] == dd;
    BagOfPermutation(ss, src);
    BagOfPermutation(dd, dst);
    forall a {
      IgnoredCount(m, ss, dd, a);
    }
    FinishEarlier(src, m);
  }

  /** The array, the cursors and the regions agree, and the regions satisfy the loop invariant. */
  ghost predicate State(ps: array<Pool>, m: Merge, ss: seq<Pool>, dd: seq<Pool>,
                        mid: int, dp: int, i: int, cr: int, j: int, rm: int)
    reads ps
  {
    && Inv(m, ss, dd) && EarlierIgnored(m, ss) && m.su <= |ss| && m.du <= |dd|
    && At(m, mid, dp, i, cr, j, rm) && ps[..] == Layout(m, ss, dd)
  }

  /** Marks the peer at j as removed. */
  method Remove(ps: array<Pool>, ghost m: Merge, ghost ss: seq<Pool>, ghost dd: seq<Pool>,
                ghost mid: int, ghost dp: int, ghost i: int, ghost cr: int, j: int, rm: int) returns (rm': int)
    requires State(ps, m, ss, dd, mid, dp, i, cr, j, rm) && j >= mid
    requires i >= dp ==> Less(ps[i].addr, ps[j].addr)
    modifies ps
    ensures rm' == rm - 1 && State(ps, RemoveStep(m, dd), ss, dd, mid, dp, i, cr, j - 1, rm')
  {
    hide Inv, Layout, EarlierIgnored, RemoveStep, Less;
    LayoutAt(m, ss, dd, ps[..], mid, dp, i, cr, j, rm);
    RemoveKeeps(m, ss, dd);
    RemoveEarlier(m, ss, dd);
    RemoveLayout(m, ss, dd, ps[..], j, rm);
    ghost var s := ps[..];
    rm' := rm - 1;
    ps[rm'], ps[j] := ps[j], ps[rm'];
    assert ps[..] == Swapped(s, rm', j);
    RemoveMoves(m, dd);
  }

  lemma RemoveMoves(m: Merge, dd: seq<Pool>)
    requires 0 < m.du <= |dd|
    ensures var m' := RemoveStep(m, dd);
      && m'.du == m.du - 1 && |m'.retained| == |m.retained| && |m'.removed| == |m.removed| + 1
      && m'.ignored == m.ignored && m'.su == m.su && m'.matched == m.matched && m'.created == m.created
  {
  }

  lemma CreateMoves(m: Merge, ss: seq<Pool>)
    requires 0 < m.su <= |ss|
    ensures var m' := CreateStep(m, ss);
      && m'.su == m.su - 1 && |m'.matched| == |m.matched| && |m'.created| == |m.created| + 1
      && m'.ignored == m.ignored && m'.du == m.du && m'.retained == m.retained
  {
  }

  /** Marks the source pool at i as created. */
  method Create(ps: array<Pool>, ghost m: Merge, ghost ss: seq<Pool>, ghost dd: seq<Pool>,
                ghost mid: int, ghost dp: int, i: int, cr: int, ghost j: int, ghost rm: int) returns (cr': int)
    requires State(ps, m, ss, dd, mid, dp, i, cr, j, rm) && i >= dp && !LastHas(m, ss[m.su - 1].addr)
    requires m.du > 0 ==> Less(dd[m.du - 1].addr, ss[m.su - 1].addr)
    modifies ps
    ensures cr' == cr - 1 && State(ps, CreateStep(m, ss), ss, dd, mid, dp, i - 1, cr', j, rm)
  {
    hide Inv, Layout, LastHas, Less, CreateStep, EarlierIgnored;
    LayoutAt(m, ss, dd, ps[..], mid, dp, i, cr, j, rm);
    CreateKeeps(m, ss, dd);
    CreateEarlier(m, ss, dd);
    CreateLayout(m, ss, dd, ps[..], i, cr);
    ghost var s := ps[..];
    cr' := cr - 1;
    ps[cr'], ps[i] := ps[i], ps[cr'];
    assert ps[..] == Swapped(s, cr', i);
    CreateMoves(m, ss);
  }

  /** Moves ps[i] to the ignored front when its address equals that of the pool to its right. */
  method Dedup(ps: array<Pool>, ghost m: Merge, ghost ss: seq<Pool>, ghost dd: seq<Pool>,
               mid: int, dp: int, i: int, ghost cr: int, ghost j: int, ghost rm: int) returns (dup: bool, dp': int)
    requires State(ps, m, ss, dd, mid, dp, i, cr, j, rm) && i >= dp
    requires m.du > 0 ==> Less(dd[m.du - 1].addr, ss[m.su - 1].addr)
    modifies ps
    ensures dup <==> LastHas(m, ss[m.su - 1].addr)
    ensures dup ==> dp' == dp + 1 && State(ps, DedupStep(m, ss), ss, dd, mid, dp', i, cr, j, rm)
    ensures !dup ==> dp' == dp && State(ps, m, ss, dd, mid, dp, i, cr, j, rm)
  {
    hide Inv, Layout, EarlierIgnored;
    LayoutAt(m, ss, dd, ps[..], mid, dp, i, cr, j, rm);
    dup := i < mid - 1 && CmpRemoteAddr(ps[i + 1], ps[i]) == 0;
    dp' := dp;
    if dup {
      DedupKeeps(m, ss, dd);
      DedupEarlier(m, ss);
      DedupLayout(m, ss, dd, ps[..], dp, i);
      ShiftUp(ps, dp, i);
      dp' := dp + 1;
    }
  }

  /** Rotates the block from `dp` to `i` by one: its last pool comes first and the others move up a place. */
  method ShiftUp(ps: array<Pool>, dp: int, i: int)
    requires 0 <= dp <= i < ps.Length
    modifies ps
    ensures ps[..] == Shifted(old(ps[..]), dp, i)
  {
    ghost var want := Shifted(ps[..], dp, i);
    ghost var was := ps[..];
    assert forall k :: 0 <= k < |was| ==>
      want[k] == if dp < k <= i then was[k - 1] else if k == dp then was[i] else was[k];
    var tmp := ps[i];
    forall k | dp < k <= i {
      ps[k] := ps[k - 1];
    }
    ps[dp] := tmp;
    assert forall k :: 0 <= k < ps.Length ==> ps[k] == want[k];
  }

  lemma MatchState(ps: array<Pool>, m: Merge, ss: seq<Pool>, dd: seq<Pool>,
                   mid: int, dp: int, i: int, cr: int, j: int, rm: int)
    requires State(ps, m, ss, dd, mid, dp, i, cr, j, rm) && i >= dp && j >= mid
    requires ss[m.su - 1].addr == dd[m.du - 1].addr
    ensures State(ps, MatchStep(m, ss, dd), ss, dd, mid, dp, i - 1, cr, j - 1, rm)
  {
    hide Inv, Layout, EarlierIgnored;
    MatchKeeps(m, ss, dd);
    MatchEarlier(m, ss, dd);
    MatchLayout(m, ss, dd);
  }

  /** A source pool without a peer at j: ignore it if it repeats the previous one, else create it. */
  method DedupOrCreate(ps: array<Pool>, ghost m: Merge, ghost ss: seq<Pool>, ghost dd: seq<Pool>,
                       mid: int, dp: int, i: int, cr: int, ghost j: int, ghost rm: int)
    returns (dp': int, i': int, cr': int, ghost m': Merge)
    requires State(ps, m, ss, dd, mid, dp, i, cr, j, rm) && i >= dp
    requires m.du > 0 ==> Less(dd[m.du - 1].addr, ss[m.su - 1].addr)
    modifies ps
    ensures m' == if LastHas(m, ss[m.su - 1].addr) then DedupStep(m, ss) else CreateStep(m, ss)
    ensures State(ps, m', ss, dd, mid, dp', i', cr', j, rm)
  {
    hide Inv, Layout, EarlierIgnored;
    var dup;
    dup, dp' := Dedup(ps, m, ss, dd, mid, dp, i, cr, j, rm);
    if dup {
      i', cr', m' := i, cr, DedupStep(m, ss);
    } else {
      cr' := Create(ps, m, ss, dd, mid, dp, i, cr, j, rm);
      i', m' := i - 1, CreateStep(m, ss);
    }
  }

  /** One turn of the main loop: the pools at the two cursors are compared. */
  method MergeOnce(ps: array<Pool>, ghost m: Merge, ghost ss: seq<Pool>, ghost dd: seq<Pool>,
                   mid: int, dp: int, i: int, cr: int, j: int, rm: int)
    returns (dp': int, i': int, cr': int, j': int, rm': int, ghost m': Merge)
    requires State(ps, m, ss, dd, mid, dp, i, cr, j, rm) && i >= dp && j >= mid
    modifies ps
    ensures State(ps, m', ss, dd, mid, dp', i', cr', j', rm')
    ensures (i' - dp') + (j' - mid) < (i - dp) + (j - mid)
  {
    hide Inv, Layout, EarlierIgnored;
    LayoutAt(m, ss, dd, ps[..], mid, dp, i, cr, j, rm);
    dp', i', cr', j', rm', m' := dp, i, cr, j, rm, m;
    var c := CmpRemoteAddr(ps[i], ps[j]);
    if c == -1 {
      rm' := Remove(ps, m, ss, dd, mid, dp, i, cr, j, rm);
      m' := RemoveStep(m, dd);
      j' := j - 1;
    } else if c == 1 {
      dp', i', cr', m' := DedupOrCreate(ps, m, ss, dd, mid, dp, i, cr, j, rm);
    } else {
      MatchState(ps, m, ss, dd, mid, dp, i, cr, j, rm);
      m' := MatchStep(m, ss, dd);
      j' := j - 1;
      i' := i - 1;
    }
  }

  lemma StateTells(ps: array<Pool>, m: Merge, ss: seq<Pool>, dd: seq<Pool>,
                   mid: int, dp: int, i: int, cr: int, j: int, rm: int)
    requires State(ps, m, ss, dd, mid, dp, i, cr, j, rm)
    ensures m.su == i - dp + 1 <= |ss| && m.du == j - mid + 1 <= |dd|
  {
  }

  lemma FinishState(src: seq<Pool>, dst: seq<Pool>, ps: array<Pool>, m: Merge,
                    mid: int, dp: int, i: int, cr: int, j: int, rm: int)
    requires State(ps, m, StableSort(src), StableSort(dst), mid, dp, i, cr, j, rm) && i < dp && j < mid
    ensures 0 <= dp <= cr <= mid <= rm <= ps.Length
    ensures IsReset(dst, src, ps[cr..rm], ps[mid..rm], ps[cr..mid], ps[rm..], ps[..dp])
  {
    hide Inv, Layout, EarlierIgnored, IsReset, StableSort;
    LayoutAt(m, StableSort(src), StableSort(dst), ps[..], mid, dp, i, cr, j, rm);
    Finish(src, dst, m);
    assert ps[cr..rm] == ps[cr..mid] + ps[mid..rm];
  }

  /** Merges `src` into `dst`; the returned lists are the slices of the one array. */
  method ResetPeers(dst: seq<Pool>, src: seq<Pool>)
    returns (result: seq<Pool>, untouched: seq<Pool>, inserted: seq<Pool>, removed: seq<Pool>, ignored: seq<Pool>)
    ensures IsReset(dst, src, result, untouched, inserted, removed, ignored)
  {
    hide Inv, Layout, EarlierIgnored, IsReset, StableSort, State;
    var ss, dd := StableSort(src), StableSort(dst);
    var mid := |src|;
    var ps := new Pool[|src| + |dst|](k requires 0 <= k < |src| + |dst| => (ss + dd)[k]);
    assert ps[..] == ss + dd;
    var dp, rm, cr, i, j := 0, ps.Length, mid, mid - 1, ps.Length - 1;
    ghost var m := StartState(ps, ss, dd);

    while i >= dp && j >= mid
      invariant State(ps, m, ss, dd, mid, dp, i, cr, j, rm)
      decreases (i - dp) + (j - mid)
    {
      dp, i, cr, j, rm, m := MergeOnce(ps, m, ss, dd, mid, dp, i, cr, j, rm);
    }

    while j >= mid
      invariant State(ps, m, ss, dd, mid, dp, i, cr, j, rm)
      invariant i < dp || j < mid
    {
      StateTells(ps, m, ss, dd, mid, dp, i, cr, j, rm);
      rm := Remove(ps, m, ss, dd, mid, dp, i, cr, j, rm);
      m := RemoveStep(m, dd);
      j := j - 1;
    }

    while i >= dp
      invariant State(ps, m, ss, dd, mid, dp, i, cr, j, rm)
      invariant j < mid
      decreases i - dp
    {
      StateTells(ps, m, ss, dd, mid, dp, i, cr, j, rm);
      dp, i, cr, m := DedupOrCreate(ps, m, ss, dd, mid, dp, i, cr, j, rm);
      StateTells(ps, m, ss, dd, mid, dp, i, cr, j, rm);
    }

    FinishState(src, dst, ps, m, mid, dp, i, cr, j, rm);
    result, untouched, inserted := ps[cr..rm], ps[mid..rm], ps[cr..mid];
    removed, ignored := ps[rm..], ps[..dp];
  }

  lemma StartState(ps: array<Pool>, ss: seq<Pool>, dd: seq<Pool>) returns (m: Merge)
    requires Sorted(ss) && Sorted(dd) && ps[..] == ss + dd
    ensures State(ps, m, ss, dd, |ss|, 0, |ss| - 1, |ss|, ps.Length - 1, ps.Length)
  {
    hide Inv, Layout, EarlierIgnored;
    Start(ss, dd);
    StartEarlier(ss, |dd|);
    m := Merge([], |ss|, [], [], |dd|, [], []);
    assert |ss| + |dd| == ps.Length by { assert |ps[..]| == ps.Length; }
  }
}
