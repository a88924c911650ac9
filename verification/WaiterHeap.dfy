/** The waiter heap of the admission gate: entries ordered by (rank, ticket), kept as
    a binary heap in a list. The three heap operations are proved to keep the heap
    order and the entries; the rest of the gate only relies on that. */
module WaiterHeap {

  datatype Waiter = Waiter(rank: nat, ticket: nat)

  predicate Less(a: Waiter, b: Waiter) {
    a.rank < b.rank || (a.rank == b.rank && a.ticket < b.ticket)
  }

  predicate Leq(a: Waiter, b: Waiter) {
    a == b || Less(a, b)
  }

  function Parent(i: nat): nat
    requires i > 0
  {
    (i - 1) / 2
  }

  predicate Ordered(h: seq<Waiter>, i: nat)
    requires 0 < i < |h|
  {
    Leq(h[Parent(i)], h[i])
  }

  // Heap order for every parent at index k or later.
  predicate HeapFrom(h: seq<Waiter>, k: nat) {
    forall i :: 0 < i < |h| && k <= Parent(i) ==> Ordered(h, i)
  }

  predicate IsHeap(h: seq<Waiter>) {
    forall i :: 0 < i < |h| ==> Ordered(h, i)
  }

  lemma {:induction false} RootIsLeast(h: seq<Waiter>, i: nat)
    requires IsHeap(h) && i < |h|
    ensures Leq(h[0], h[i])
  {
    if i > 0 {
      assert Ordered(h, i);
      RootIsLeast(h, Parent(i));
    }
  }

  function Swap(h: seq<Waiter>, i: nat, j: nat): (r: seq<Waiter>)
    requires i < |h| && j < |h|
    ensures multiset(r) == multiset(h)
    ensures |r| == |h| && r[i] == h[j] && r[j] == h[i]
    ensures forall k :: 0 <= k < |h| && k != i && k != j ==> r[k] == h[k]
  {
    h[i := h[j]][j := h[i]]
  }

  // Both children of i, where they exist, are no less than w.
  predicate Above(w: Waiter, h: seq<Waiter>, i: nat) {
    && (2 * i + 1 < |h| ==> Leq(w, h[2 * i + 1]))
    && (2 * i + 2 < |h| ==> Leq(w, h[2 * i + 2]))
  }

  // Heap order everywhere but between i and its parent.
  predicate Rising(h: seq<Waiter>, i: nat) {
    && i < |h|
    && (forall j :: 0 < j < |h| && j != i ==> Ordered(h, j))
    && (i > 0 ==> Above(h[Parent(i)], h, i))
  }

  lemma RiseStep(h: seq<Waiter>, i: nat)
    requires i > 0 && Rising(h, i) && Less(h[i], h[Parent(i)])
    ensures Rising(Swap(h, i, Parent(i)), Parent(i))
  {
    var p := Parent(i);
    var r := Swap(h, i, p);
    forall j | 0 < j < |r| && j != p ensures Ordered(r, j) {
      assert j != i ==> Ordered(h, j);
      assert p > 0 ==> Ordered(h, p);
    }
    if p > 0 {
      assert Ordered(h, p);
      if 2 * p + 1 < |r| { assert Parent(2 * p + 1) == p && (2 * p + 1 != i ==> Ordered(h, 2 * p + 1)); }
      if 2 * p + 2 < |r| { assert Parent(2 * p + 2) == p && (2 * p + 2 != i ==> Ordered(h, 2 * p + 2)); }
    }
  }

  // heapq.heappush
  method Push(h: seq<Waiter>, w: Waiter) returns (r: seq<Waiter>)
    requires IsHeap(h)
    ensures IsHeap(r)
    ensures multiset(r) == multiset(h) + multiset{w}
  {
    r := h + [w];
    var i: nat := |h|;
    forall j | 0 < j < |r| && j != i ensures Ordered(r, j) {
      assert Ordered(h, j);
    }
    while i > 0 && Less(r[i], r[Parent(i)])
      invariant Rising(r, i)
      invariant multiset(r) == multiset(h) + multiset{w}
    {
      RiseStep(r, i);
      r := Swap(r, i, Parent(i));
      i := Parent(i);
    }
  }

  // Heap order from parent k on, but for the children of i.
  predicate Sinking(h: seq<Waiter>, k: nat, i: nat) {
    && k <= i < |h|
    && (forall j :: 0 < j < |h| && k <= Parent(j) && Parent(j) != i ==> Ordered(h, j))
    && (i > k ==> k <= Parent(i) && Above(h[Parent(i)], h, i))
  }

  lemma SinkStep(h: seq<Waiter>, k: nat, i: nat, c: nat)
    requires Sinking(h, k, i)
    requires 0 < c < |h| && Parent(c) == i && Less(h[c], h[i]) && Above(h[c], h, i)
    ensures Sinking(Swap(h, i, c), k, c)
  {
    var r := Swap(h, i, c);
    forall j | 0 < j < |r| && k <= Parent(j) && Parent(j) != c ensures Ordered(r, j) {
      if Parent(j) == i {
        assert j == 2 * i + 1 || j == 2 * i + 2;
      } else {
        assert Ordered(h, j);
      }
    }
    if 2 * c + 1 < |r| { assert Parent(2 * c + 1) == c && Ordered(h, 2 * c + 1); }
    if 2 * c + 2 < |r| { assert Parent(2 * c + 2) == c && Ordered(h, 2 * c + 2); }
  }

  lemma SinkDone(h: seq<Waiter>, k: nat, i: nat)
    requires Sinking(h, k, i) && Above(h[i], h, i)
    ensures HeapFrom(h, k)
  {
    forall j | 0 < j < |h| && k <= Parent(j) ensures Ordered(h, j) {
      if Parent(j) == i {
        assert j == 2 * i + 1 || j == 2 * i + 2;
      }
    }
  }

  method Sink(h: seq<Waiter>, k: nat) returns (r: seq<Waiter>)
    requires k < |h| && HeapFrom(h, k + 1)
    ensures HeapFrom(r, k) && |r| == |h|
    ensures multiset(r) == multiset(h)
  {
    r := h;
    var i: nat := k;
    while 2 * i + 1 < |r|
      invariant Sinking(r, k, i) && |r| == |h|
      invariant multiset(r) == multiset(h)
      decreases |r| - i
    {
      var child := 2 * i + 1;
      if child + 1 < |r| && Less(r[child + 1], r[child]) {
        child := child + 1;
      }
      if !Less(r[child], r[i]) {
        break;
      }
      SinkStep(r, k, i, child);
      r := Swap(r, i, child);
      i := child;
    }
    SinkDone(r, k, i);
  }

  lemma RootIsLeastOfAll(h: seq<Waiter>)
    requires IsHeap(h) && h != []
    ensures forall i :: 0 <= i < |h| ==> Leq(h[0], h[i])
  {
    forall i | 0 <= i < |h| ensures Leq(h[0], h[i]) {
      RootIsLeast(h, i);
    }
  }

  // The last entry moved to the root, ready to sink.
  lemma LastToRoot(h: seq<Waiter>)
    requires IsHeap(h) && |h| > 1
    ensures var r := h[..|h| - 1][0 := h[|h| - 1]];
      HeapFrom(r, 1) && multiset(h) == multiset(r) + multiset{h[0]}
  {
    var r := h[..|h| - 1][0 := h[|h| - 1]];
    forall j | 0 < j < |r| && 1 <= Parent(j) ensures Ordered(r, j) {
      assert Ordered(h, j);
    }
    assert h == [h[0]] + h[1..|h| - 1] + [h[|h| - 1]];
    assert r == [h[|h| - 1]] + h[1..|h| - 1];
  }

  // heapq.heappop
  method Pop(h: seq<Waiter>) returns (least: Waiter, r: seq<Waiter>)
    requires IsHeap(h) && h != []
    ensures IsHeap(r)
    ensures least == h[0] && multiset(h) == multiset(r) + multiset{least}
    ensures forall i :: 0 <= i < |h| ==> Leq(least, h[i])
  {
    hide Leq, Ordered, Parent;
    least := h[0];
    RootIsLeastOfAll(h);
    if |h| == 1 {
      assert h == [least];
      r := [];
    } else {
      LastToRoot(h);
      r := Sink(h[..|h| - 1][0 := h[|h| - 1]], 0);
    }
  }

  // heapq.heapify
  method Heapify(s: seq<Waiter>) returns (r: seq<Waiter>)
    ensures IsHeap(r)
    ensures multiset(r) == multiset(s)
  {
    r := s;
    var k := |s| / 2;
    while k > 0
      invariant 0 <= k <= |s| == |r|
      invariant multiset(r) == multiset(s)
      invariant HeapFrom(r, k)
    {
      k := k - 1;
      r := Sink(r, k);
    }
  }

  predicate Before(q: seq<Waiter>, i: nat, j: nat)
    requires i < |q| && j < |q|
  {
    Less(q[i], q[j])
  }

  // The order in which a heap hands its entries out.
  predicate Sorted(q: seq<Waiter>) {
    forall i, j :: 0 <= i < j < |q| ==> Before(q, i, j)
  }

  lemma SortedTail(q: seq<Waiter>)
    requires Sorted(q) && q != []
    ensures Sorted(q[1..])
    ensures forall w :: w in q[1..] ==> Less(q[0], w)
  {
    forall i, j | 0 <= i < j < |q[1..]| ensures Before(q[1..], i, j) {
      assert Before(q, i + 1, j + 1);
    }
    forall w | w in q[1..] ensures Less(q[0], w) {
      var i :| 0 <= i < |q[1..]| && q[1..][i] == w;
      assert Before(q, 0, i + 1);
    }
  }

  lemma SortedCons(w: Waiter, q: seq<Waiter>)
    requires Sorted(q) && forall v :: v in q ==> Less(w, v)
    ensures Sorted([w] + q)
  {
    forall i, j | 0 <= i < j < |q| + 1 ensures Before([w] + q, i, j) {
      if i == 0 {
        assert q[j - 1] in q;
      } else {
        assert Before(q, i - 1, j - 1);
      }
    }
  }

  function Insert(q: seq<Waiter>, w: Waiter): (r: seq<Waiter>)
    ensures multiset(r) == multiset(q) + multiset{w}
    ensures |r| == |q| + 1
  {
    if q == [] || Less(w, q[0]) then [w] + q
    else
      assert q == [q[0]] + q[1..];
      [q[0]] + Insert(q[1..], w)
  }

  lemma {:induction false} InsertSorted(q: seq<Waiter>, w: Waiter)
    requires Sorted(q) && w !in q
    ensures Sorted(Insert(q, w))
    ensures forall v :: v in Insert(q, w) <==> v in q || v == w
  {
    if q == [] {
    } else {
      SortedTail(q);
      assert q == [q[0]] + q[1..];
      if Less(w, q[0]) {
        SortedCons(w, q);
      } else {
        InsertSorted(q[1..], w);
        SortedCons(q[0], Insert(q[1..], w));
      }
    }
  }

  function Without(q: seq<Waiter>, s: nat): seq<Waiter> {
    if q == [] then []
    else if q[0].ticket == s then Without(q[1..], s)
    else [q[0]] + Without(q[1..], s)
  }

  lemma {:induction false} WithoutMembers(q: seq<Waiter>, s: nat)
    ensures forall w :: w in Without(q, s) <==> w in q && w.ticket != s
  {
    if q != [] {
      WithoutMembers(q[1..], s);
      assert q == [q[0]] + q[1..];
    }
  }

  lemma {:induction false} WithoutSorted(q: seq<Waiter>, s: nat)
    requires Sorted(q)
    ensures Sorted(Without(q, s))
  {
    if q != [] {
      SortedTail(q);
      WithoutMembers(q[1..], s);
      WithoutSorted(q[1..], s);
      if q[0].ticket != s {
        SortedCons(q[0], Without(q[1..], s));
      }
    }
  }

  lemma {:induction false} WithoutMultiset(q: seq<Waiter>, s: nat)
    ensures forall w :: multiset(Without(q, s))[w] == if w.ticket == s then 0 else multiset(q)[w]
  {
    if q != [] {
      assert q == [q[0]] + q[1..];
      WithoutMultiset(q[1..], s);
    }
  }

  // A heap and the sorted list of its entries.
  ghost predicate Holds(h: seq<Waiter>, q: seq<Waiter>) {
    IsHeap(h) && Sorted(q) && multiset(h) == multiset(q)
  }

  lemma HeadOfHeap(h: seq<Waiter>, q: seq<Waiter>)
    requires Holds(h, q)
    ensures |h| == |q|
    ensures h != [] ==> h[0] == q[0]
  {
    assert |multiset(h)| == |multiset(q)|;
    if h != [] {
      assert q[0] in multiset(h) && h[0] in multiset(q);
      var i :| 0 <= i < |h| && h[i] == q[0];
      RootIsLeast(h, i);
      SortedTail(q);
      assert q == [q[0]] + q[1..];
      assert h[0] in q;
    }
  }

  lemma PopHolds(h: seq<Waiter>, q: seq<Waiter>, rest: seq<Waiter>)
    requires Holds(h, q) && h != [] && IsHeap(rest)
    requires multiset(h) == multiset(rest) + multiset{h[0]}
    ensures q != [] && h[0] == q[0] && Holds(rest, q[1..])
  {
    HeadOfHeap(h, q);
    SortedTail(q);
    assert q == [q[0]] + q[1..];
    forall v ensures multiset(rest)[v] == multiset(q[1..])[v] {
      assert multiset(q)[v] == multiset{q[0]}[v] + multiset(q[1..])[v];
    }
  }

  lemma PushHolds(h: seq<Waiter>, q: seq<Waiter>, w: Waiter, more: seq<Waiter>)
    requires Holds(h, q) && w !in q && IsHeap(more)
    requires multiset(more) == multiset(h) + multiset{w}
    ensures Holds(more, Insert(q, w))
  {
    InsertSorted(q, w);
  }

  lemma DropHolds(h: seq<Waiter>, q: seq<Waiter>, t: nat, kept: seq<Waiter>)
    requires Holds(h, q) && IsHeap(kept) && multiset(kept) == multiset(Without(h, t))
    ensures Holds(kept, Without(q, t))
  {
    WithoutMultiset(h, t);
    WithoutMultiset(q, t);
    WithoutSorted(q, t);
  }

  lemma {:induction false} WithoutSnoc(q: seq<Waiter>, w: Waiter, t: nat)
    ensures Without(q + [w], t) == Without(q, t) + if w.ticket == t then [] else [w]
  {
    if q == [] {
      assert q + [w] == [w];
      assert Without([w], t) == if w.ticket == t then [] else [w] + Without([], t);
    } else {
      WithoutSnoc(q[1..], w, t);
      assert (q + [w])[1..] == q[1..] + [w];
      assert (q + [w])[0] == q[0];
    }
  }
}
