/** The binary heap of Go's container/heap, over a sequence and a strict order `less`,
    as the nonce index and the price heaps use it. */
module BinaryHeap {

  /** `less` is a strict weak order: ties are allowed, cycles are not. */
  ghost predicate StrictWeakOrder<T(!new)>(less: (T, T) -> bool) {
    && (forall a, b :: less(a, b) ==> !less(b, a))
    && (forall a, b, c :: !less(a, b) && !less(b, c) ==> !less(a, c))
  }

  function Parent(j: nat): nat {
    if j == 0 then 0 else (j - 1) / 2
  }

  /** Element `k` is not smaller than its parent. */
  ghost predicate EdgeOk<T>(h: seq<T>, less: (T, T) -> bool, k: nat)
    requires 1 <= k < |h|
  {
    !less(h[k], h[Parent(k)])
  }

  /** The heap order on the edges whose parent is at or above index `lo`, within the first `n` elements. */
  ghost predicate HeapFrom<T>(h: seq<T>, less: (T, T) -> bool, lo: nat, n: nat)
    requires n <= |h|
  {
    forall k | 1 <= k < n && lo <= Parent(k) :: EdgeOk(h, less, k)
  }

  ghost predicate IsHeap<T>(h: seq<T>, less: (T, T) -> bool) {
    HeapFrom(h, less, 0, |h|)
  }

  function Swap<T>(s: seq<T>, i: nat, j: nat): (r: seq<T>)
    requires i < |s| && j < |s|
    ensures |r| == |s| && r[i] == s[j] && r[j] == s[i]
    ensures forall k | 0 <= k < |s| && k != i && k != j :: r[k] == s[k]
    ensures multiset(r) == multiset(s)
  {
    var r := s[i := s[j]][j := s[i]];
    SwapMultiset(s, i, j);
    r
  }

  lemma SwapMultiset<T>(s: seq<T>, i: nat, j: nat)
    requires i < |s| && j < |s|
    ensures multiset(s[i := s[j]][j := s[i]]) == multiset(s)
  {
  }

  /** The root is a least element. */
  lemma {:induction false} RootIsLeast<T(!new)>(h: seq<T>, less: (T, T) -> bool, k: nat)
    requires StrictWeakOrder(less) && IsHeap(h, less) && k < |h|
    ensures !less(h[k], h[0])
    decreases k
  {
    if k > 0 {
      assert EdgeOk(h, less, k);
      RootIsLeast(h, less, Parent(k));
    }
  }

  lemma RootIsLeastOfAll<T(!new)>(h: seq<T>, less: (T, T) -> bool)
    requires StrictWeakOrder(less) && IsHeap(h, less) && |h| > 0
    ensures forall x | x in h :: !less(x, h[0])
  {
    forall x | x in h
      ensures !less(x, h[0])
    {
      var k :| 0 <= k < |h| && h[k] == x;
      RootIsLeast(h, less, k);
    }
  }

  /** Every edge holds except possibly the one above `j`, and the children of `j` respect the parent of `j`. */
  ghost predicate HeapButUp<T>(h: seq<T>, less: (T, T) -> bool, j: nat)
    requires j < |h|
  {
    && (forall k | 1 <= k < |h| && k != j :: EdgeOk(h, less, k))
    && (forall k | 1 <= k < |h| && Parent(k) == j && j > 0 :: !less(h[k], h[Parent(j)]))
  }

  method Up<T(!new)>(h0: seq<T>, less: (T, T) -> bool, j0: nat) returns (h: seq<T>)
    requires StrictWeakOrder(less)
    requires j0 < |h0| && HeapButUp(h0, less, j0)
    ensures IsHeap(h, less) && multiset(h) == multiset(h0) && |h| == |h0|
  {
    h := h0;
    var j := j0;
    while j > 0 && less(h[j], h[Parent(j)])
      invariant 0 <= j < |h| == |h0|
      invariant HeapButUp(h, less, j)
      invariant multiset(h) == multiset(h0)
      decreases j
    {
      UpStep(h, less, j);
      h := Swap(h, Parent(j), j);
      j := Parent(j);
    }
  }

  lemma UpStep<T(!new)>(h: seq<T>, less: (T, T) -> bool, j: nat)
    requires StrictWeakOrder(less)
    requires 0 < j < |h| && HeapButUp(h, less, j) && less(h[j], h[Parent(j)])
    ensures HeapButUp(Swap(h, Parent(j), j), less, Parent(j))
  {
    var p := Parent(j);
    var r := Swap(h, p, j);
    forall k | 1 <= k < |r| && k != p
      ensures EdgeOk(r, less, k)
    {
      if k != j { assert EdgeOk(h, less, k); }
    }
    forall k | 1 <= k < |r| && Parent(k) == p && p > 0
      ensures !less(r[k], r[Parent(p)])
    {
      assert EdgeOk(h, less, p);
      if k != j { assert EdgeOk(h, less, k); }
    }
  }

  /** Every edge under index `lo` holds except those below `i`; the children of `i` respect the parent of `i`. */
  ghost predicate HeapButDown<T>(h: seq<T>, less: (T, T) -> bool, lo: nat, i: nat, n: nat)
    requires n <= |h| && lo <= i
  {
    && (forall k | 1 <= k < n && lo <= Parent(k) && Parent(k) != i :: EdgeOk(h, less, k))
    && (forall k | 1 <= k < n && Parent(k) == i && 0 < i && lo <= Parent(i) :: !less(h[k], h[Parent(i)]))
  }

  /** `k` is outside the subtree of `i0` within the first `n` elements. */
  predicate Untouched(k: nat, i0: nat, n: nat) {
    k >= n || (k != i0 && (k == 0 || Parent(k) < i0))
  }

  method Down<T(!new)>(h0: seq<T>, less: (T, T) -> bool, i0: nat, n: nat) returns (h: seq<T>, moved: bool)
    requires StrictWeakOrder(less)
    requires i0 <= n <= |h0| && HeapButDown(h0, less, i0, i0, n)
    ensures |h| == |h0| && multiset(h) == multiset(h0)
    ensures HeapFrom(h, less, i0, n)
    ensures forall k | 0 <= k < |h| && Untouched(k, i0, n) :: h[k] == h0[k]
    ensures !moved ==> h == h0
    ensures moved ==> i0 < n && exists c | 1 <= c < n && Parent(c) == i0 :: h[i0] == h0[c]
  {
    hide StrictWeakOrder, HeapButDown;
    h := h0;
    var i := i0;
    moved := false;
    ghost var child := 0;
    while 2 * i + 1 < n
      invariant i0 <= i && |h| == |h0|
      invariant HeapButDown(h, less, i0, i, n)
      invariant multiset(h) == multiset(h0)
      invariant forall k | 0 <= k < |h| && Untouched(k, i0, n) :: h[k] == h0[k]
      invariant i == i0 || i0 <= Parent(i)
      invariant moved <==> i > i0
      invariant !moved ==> h == h0
      invariant moved ==> 1 <= child < n && Parent(child) == i0 && h[i0] == h0[child]
      decreases n - i
    {
      var j := 2 * i + 1;
      if j + 1 < n && less(h[j + 1], h[j]) {
        j := j + 1;
      }
      SmallerChild(h, less, i, j, n);
      if !less(h[j], h[i]) {
        break;
      }
      DownStep(h, less, i0, i, j, n);
      if i == i0 {
        child := j;
      }
      h := Swap(h, i, j);
      moved := true;
      i := j;
    }
    DownDone(h, less, i0, i, n);
  }

  /** No child is smaller than the smaller child, nor than the parent if that one is not. */
  lemma SmallerChild<T(!new)>(h: seq<T>, less: (T, T) -> bool, i: nat, j: nat, n: nat)
    requires StrictWeakOrder(less) && n <= |h| && 2 * i + 1 < n
    requires j == if 2 * i + 2 < n && less(h[2 * i + 2], h[2 * i + 1]) then 2 * i + 2 else 2 * i + 1
    ensures forall k | 1 <= k < n && Parent(k) == i :: !less(h[k], h[j])
    ensures !less(h[j], h[i]) ==> forall k | 1 <= k < n && Parent(k) == i :: !less(h[k], h[i])
  {
    forall k | 1 <= k < n && Parent(k) == i
      ensures !less(h[k], h[j])
    {
      assert k == 2 * i + 1 || k == 2 * i + 2;
    }
  }

  lemma DownStep<T(!new)>(h: seq<T>, less: (T, T) -> bool, lo: nat, i: nat, j: nat, n: nat)
    requires StrictWeakOrder(less)
    requires lo <= i && n <= |h| && HeapButDown(h, less, lo, i, n)
    requires 1 <= j < n && Parent(j) == i && less(h[j], h[i])
    requires forall k | 1 <= k < n && Parent(k) == i :: !less(h[k], h[j])
    ensures HeapButDown(Swap(h, i, j), less, lo, j, n)
  {
    var r := Swap(h, i, j);
    forall k | 1 <= k < n && lo <= Parent(k) && Parent(k) != j
      ensures EdgeOk(r, less, k)
    {
      if Parent(k) != i { assert EdgeOk(h, less, k); }
    }
    forall k | 1 <= k < n && Parent(k) == j
      ensures !less(r[k], r[Parent(j)])
    {
      assert EdgeOk(h, less, k);
    }
  }

  lemma DownDone<T(!new)>(h: seq<T>, less: (T, T) -> bool, lo: nat, i: nat, n: nat)
    requires lo <= i && n <= |h| && HeapButDown(h, less, lo, i, n)
    requires forall k | 1 <= k < n && Parent(k) == i :: !less(h[k], h[i])
    ensures HeapFrom(h, less, lo, n)
  {
  }

  method Init<T(!new)>(h0: seq<T>, less: (T, T) -> bool) returns (h: seq<T>)
    requires StrictWeakOrder(less)
    ensures IsHeap(h, less) && multiset(h) == multiset(h0) && |h| == |h0|
  {
    h := h0;
    var i := |h| / 2;
    while i > 0
      invariant 0 <= i <= |h| / 2 && |h| == |h0|
      invariant HeapFrom(h, less, i, |h|)
      invariant multiset(h) == multiset(h0)
    {
      i := i - 1;
      assert HeapButDown(h, less, i, i, |h|) by {
        forall k | 1 <= k < |h| && i <= Parent(k) && Parent(k) != i
          ensures EdgeOk(h, less, k)
        {
        }
      }
      var moved;
      h, moved := Down(h, less, i, |h|);
    }
  }

  method Push<T(!new)>(h0: seq<T>, less: (T, T) -> bool, x: T) returns (h: seq<T>)
    requires StrictWeakOrder(less) && IsHeap(h0, less)
    ensures IsHeap(h, less) && multiset(h) == multiset(h0) + multiset{x} && |h| == |h0| + 1
  {
    var g := h0 + [x];
    assert HeapButUp(g, less, |h0|) by {
      forall k | 1 <= k < |g| && k != |h0|
        ensures EdgeOk(g, less, k)
      {
        assert EdgeOk(h0, less, k);
      }
    }
    h := Up(g, less, |h0|);
  }

  method Pop<T(!new)>(h0: seq<T>, less: (T, T) -> bool) returns (h: seq<T>, x: T)
    requires StrictWeakOrder(less) && IsHeap(h0, less) && |h0| > 0
    ensures x == h0[0] && IsHeap(h, less) && multiset(h) == multiset(h0) - multiset{x} && |h| == |h0| - 1
    ensures forall y | y in h0 :: !less(y, x)
  {
    var d, moved := SwapDown(h0, less, 0);
    RootIsLeastOfAll(h0, less);
    var n := |h0| - 1;
    x := d[n];
    h := d[..n];
    TruncateHeap(d, less, n);
    DropLast(d);
  }

  /** Exchanges element `i` with the last one and lets the newcomer sink. */
  method SwapDown<T(!new)>(h0: seq<T>, less: (T, T) -> bool, i: nat) returns (d: seq<T>, moved: bool)
    requires StrictWeakOrder(less) && IsHeap(h0, less) && i < |h0|
    ensures |d| == |h0| && multiset(d) == multiset(h0) && d[|h0| - 1] == h0[i]
    ensures HeapFrom(d, less, i, |h0| - 1)
    ensures forall k | 0 <= k < |h0| - 1 && Untouched(k, i, |h0| - 1) :: d[k] == h0[k]
    ensures !moved ==> forall k | 0 <= k < |h0| - 1 && k != i :: d[k] == h0[k]
    ensures moved ==> exists c | 1 <= c < |h0| - 1 && Parent(c) == i :: d[i] == h0[c]
  {
    SwappedHeap(h0, less, i);
    d, moved := Down(Swap(h0, i, |h0| - 1), less, i, |h0| - 1);
  }

  lemma DropLast<T>(d: seq<T>)
    requires |d| > 0
    ensures multiset(d[..|d| - 1]) == multiset(d) - multiset{d[|d| - 1]}
  {
    assert d == d[..|d| - 1] + [d[|d| - 1]];
  }

  lemma TruncateHeap<T>(d: seq<T>, less: (T, T) -> bool, n: nat)
    requires n <= |d| && HeapFrom(d, less, 0, n)
    ensures IsHeap(d[..n], less)
  {
    forall k | 1 <= k < n
      ensures EdgeOk(d[..n], less, k)
    {
      assert EdgeOk(d, less, k);
    }
  }

  lemma HeapPrefix<T>(h: seq<T>, less: (T, T) -> bool, n: nat)
    requires IsHeap(h, less) && n <= |h|
    ensures HeapFrom(h, less, 0, n)
  {
  }

  method RemoveAt<T(!new)>(h0: seq<T>, less: (T, T) -> bool, i: nat) returns (h: seq<T>)
    requires StrictWeakOrder(less) && IsHeap(h0, less) && i < |h0|
    ensures IsHeap(h, less) && multiset(h) == multiset(h0) - multiset{h0[i]} && |h| == |h0| - 1
  {
    hide StrictWeakOrder, HeapButUp, Untouched, Parent, IsHeap, HeapFrom;
    var n := |h0| - 1;
    if n == i {
      h := h0[..n];
      HeapPrefix(h0, less, n);
      TruncateHeap(h0, less, n);
      DropLast(h0);
      return;
    }
    var d, moved := SwapDown(h0, less, i);
    h := d[..n];
    DropLast(d);
    if moved {
      RemoveMoved(h0, d, less, i);
    } else {
      RemoveStayed(h0, d, less, i);
      h := Up(h, less, i);
    }
  }

  lemma SwappedHeap<T(!new)>(h0: seq<T>, less: (T, T) -> bool, i: nat)
    requires StrictWeakOrder(less) && IsHeap(h0, less) && i < |h0|
    ensures HeapButDown(Swap(h0, i, |h0| - 1), less, i, i, |h0| - 1)
  {
    var n := |h0| - 1;
    var g := Swap(h0, i, n);
    forall k | 1 <= k < n && i <= Parent(k) && Parent(k) != i
      ensures EdgeOk(g, less, k)
    {
      assert EdgeOk(h0, less, k);
    }
  }

  lemma RemoveMoved<T(!new)>(h0: seq<T>, d: seq<T>, less: (T, T) -> bool, i: nat)
    requires StrictWeakOrder(less) && IsHeap(h0, less) && i < |h0| - 1 && |d| == |h0|
    requires HeapFrom(d, less, i, |h0| - 1)
    requires forall k | 0 <= k < |h0| - 1 && Untouched(k, i, |h0| - 1) :: d[k] == h0[k]
    requires exists c | 1 <= c < |h0| - 1 && Parent(c) == i :: d[i] == h0[c]
    ensures IsHeap(d[..|h0| - 1], less)
  {
    var n := |h0| - 1;
    var c :| 1 <= c < n && Parent(c) == i && d[i] == h0[c];
    forall k | 1 <= k < n
      ensures EdgeOk(d, less, k)
    {
      if Parent(k) < i {
        assert EdgeOk(h0, less, k);
        if k == i {
          assert EdgeOk(h0, less, c);
        }
      }
    }
    TruncateHeap(d, less, n);
  }

  lemma RemoveStayed<T(!new)>(h0: seq<T>, d: seq<T>, less: (T, T) -> bool, i: nat)
    requires StrictWeakOrder(less) && IsHeap(h0, less) && i < |h0| - 1 && |d| == |h0|
    requires HeapFrom(d, less, i, |h0| - 1)
    requires forall k | 0 <= k < |h0| - 1 && k != i :: d[k] == h0[k]
    ensures HeapButUp(d[..|h0| - 1], less, i)
  {
    var n := |h0| - 1;
    var h := d[..n];
    forall k | 1 <= k < n && k != i
      ensures EdgeOk(h, less, k)
    {
      assert EdgeOk(h0, less, k);
      if Parent(k) == i { assert EdgeOk(d, less, k); }
    }
    forall k | 1 <= k < n && Parent(k) == i && i > 0
      ensures !less(h[k], h[Parent(i)])
    {
      assert EdgeOk(h0, less, k) && EdgeOk(h0, less, i);
    }
  }
}
