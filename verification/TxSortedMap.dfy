/** txSortedMap: a nonce-to-transaction map, a heap of its nonces, and a cached sorted listing. */
module SortedMap {
  import opened Options
  import opened Types
  import opened NonceMap
  import Heap = BinaryHeap

  const NONCE_LESS: (nat, nat) -> bool := (a, b) => a < b

  lemma NonceLessIsOrder()
    ensures Heap.StrictWeakOrder(NONCE_LESS)
  {
  }

  /** The index is a min-heap holding each key of `m` exactly once. */
  ghost predicate Indexed(index: seq<nat>, m: Items) {
    Heap.IsHeap(index, NONCE_LESS) && multiset(index) == multiset(m.Keys)
  }

  lemma IndexMembers(index: seq<nat>, m: Items)
    requires Indexed(index, m)
    ensures |index| == |m|
    ensures forall n: nat :: n in index <==> n in m
    ensures |index| > 0 ==> IsMin(m.Keys, index[0])
  {
    assert |multiset(index)| == |multiset(m.Keys)|;
    assert forall n: nat :: n in index <==> n in multiset(index);
    if |index| > 0 {
      NonceLessIsOrder();
      Heap.RootIsLeastOfAll(index, NONCE_LESS);
      assert index[0] in index;
      forall n | n in m.Keys
        ensures index[0] <= n
      {
        assert n in index;
        assert !NONCE_LESS(n, index[0]);
      }
    }
  }

  method SortBy<T(!new)>(s: seq<T>, key: T -> nat) returns (r: seq<T>)
    ensures multiset(r) == multiset(s) && |r| == |s|
    ensures forall i, j | 0 <= i < j < |r| :: key(r[i]) <= key(r[j])
  {
    r := [];
    for k := 0 to |s|
      invariant multiset(r) == multiset(s[..k]) && |r| == k
      invariant forall i, j | 0 <= i < j < |r| :: key(r[i]) <= key(r[j])
    {
      assert s[..k + 1] == s[..k] + [s[k]];
      r := InsertBy(r, key, s[k]);
    }
    assert s[..|s|] == s;
  }

  method InsertBy<T(!new)>(s: seq<T>, key: T -> nat, x: T) returns (r: seq<T>)
    requires forall i, j | 0 <= i < j < |s| :: key(s[i]) <= key(s[j])
    ensures multiset(r) == multiset(s) + multiset{x} && |r| == |s| + 1
    ensures forall i, j | 0 <= i < j < |r| :: key(r[i]) <= key(r[j])
  {
    var p := |s|;
    while p > 0 && key(x) < key(s[p - 1])
      invariant 0 <= p <= |s|
      invariant forall i | p <= i < |s| :: key(x) < key(s[i])
    {
      p := p - 1;
    }
    r := s[..p] + [x] + s[p..];
    InsertedMultiset(s, p, x);
    InsertedOrder(s, key, p, x);
  }

  lemma InsertedMultiset<T>(s: seq<T>, p: nat, x: T)
    requires p <= |s|
    ensures multiset(s[..p] + [x] + s[p..]) == multiset(s) + multiset{x}
  {
    assert s == s[..p] + s[p..];
  }

  lemma InsertedOrder<T>(s: seq<T>, key: T -> nat, p: nat, x: T)
    requires forall i, j | 0 <= i < j < |s| :: key(s[i]) <= key(s[j])
    requires p <= |s| && (p > 0 ==> key(s[p - 1]) <= key(x))
    requires forall i | p <= i < |s| :: key(x) < key(s[i])
    ensures var r := s[..p] + [x] + s[p..];
            forall i, j | 0 <= i < j < |r| :: key(r[i]) <= key(r[j])
  {
  }

  class TxSortedMap {
    var items: Items
    var index: seq<nat>
    var cache: Option<seq<Transaction>>

    ghost predicate Valid()
      reads this
    {
      && Keyed(items)
      && Indexed(index, items)
      && (cache.Some? ==> IsListing(items, cache.value))
    }

    constructor ()
      ensures Valid() && items == map[] && cache == None
    {
      items, index, cache := map[], [], None;
    }

    method Put(tx: Transaction)
      requires Valid()
      modifies this
      ensures Valid()
      ensures items == old(items)[tx.nonce := tx] && cache == None
    {
      var nonce := tx.nonce;
      if nonce !in items {
        NonceLessIsOrder();
        index := Heap.Push(index, NONCE_LESS, nonce);
      }
      items, cache := items[nonce := tx], None;
      assert items.Keys == old(items).Keys + {nonce};
    }

    /** Drops the nonces below `threshold` and returns them in order; a cached listing survives. */
    method Forward(threshold: nat) returns (removed: seq<Transaction>)
      requires Valid()
      modifies this
      ensures Valid()
      ensures items == From(old(items), threshold)
      ensures IsListing(Below(old(items), threshold), removed)
      ensures old(cache).Some? ==> cache.Some?
    {
      removed := PopBelow(threshold);
      if cache.Some? {
        ListingTail(old(items), cache.value, threshold, removed);
        cache := Some(cache.value[|removed|..]);
      }
    }

    /** The loop of Forward: pops the heap until the threshold is reached. */
    method PopBelow(threshold: nat) returns (removed: seq<Transaction>)
      requires Keyed(items) && Indexed(index, items)
      modifies this
      ensures Keyed(items) && Indexed(index, items) && cache == old(cache)
      ensures items == From(old(items), threshold)
      ensures IsListing(Below(old(items), threshold), removed)
    {
      hide Split, IsListing, LowerThan, Indexed, Keyed, IsMin;
      removed := [];
      ghost var gone: Items := map[];
      IndexMembers(index, items);
      NothingGone(items);
      while |index| > 0 && index[0] < threshold
        invariant Keyed(items) && Indexed(index, items) && cache == old(cache)
        invariant |index| > 0 ==> IsMin(items.Keys, index[0])
        invariant Split(old(items), items, gone) && IsListing(gone, removed) && LowerThan(gone, items)
        invariant forall n | n in gone :: n < threshold
        decreases |index|
      {
        LowestHeld(old(items), items, gone, index[0]);
        MoveOne(old(items), items, gone, index[0]);
        ListMore(gone, removed, items, index[0]);
        gone := gone[index[0] := items[index[0]]];
        var tx := PopLowest();
        removed := removed + [tx];
      }
      IndexMembers(index, items);
      ForwardDone(old(items), items, gone, threshold, index);
    }

    /** Takes the transaction with the lowest nonce off the heap and the map. */
    method PopLowest() returns (tx: Transaction)
      requires Keyed(items) && Indexed(index, items) && |index| > 0 && IsMin(items.Keys, index[0])
      modifies this
      ensures Keyed(items) && Indexed(index, items) && cache == old(cache)
      ensures |index| == |old(index)| - 1
      ensures |index| > 0 ==> IsMin(items.Keys, index[0])
      ensures items == old(items) - {old(index)[0]} && tx == old(items)[old(index)[0]]
    {
      NonceLessIsOrder();
      var nonce;
      index, nonce := Heap.Pop(index, NONCE_LESS);
      tx := items[nonce];
      items := items - {nonce};
      assert items.Keys == old(items).Keys - {nonce};
      IndexMembers(index, items);
    }

    /** Removes what `f` selects; `removed` comes in the order the map happens to be walked. */
    method Filter(f: Transaction -> bool) returns (removed: seq<Transaction>)
      requires Valid()
      modifies this
      ensures Valid()
      ensures items == Without(old(items), f)
      ensures Collects(Matching(old(items), f), removed)
      ensures removed == [] ==> cache == old(cache)
    {
      removed := FilterItems(f);
      if |removed| > 0 {
        Reheap();
      } else {
        assert Matching(old(items), f).Keys == {};
        assert forall n | n in old(items) :: f(old(items)[n]) ==> n in Matching(old(items), f).Keys;
      }
    }

    /** filter: leaves the index stale, to be followed by Reheap. */
    method FilterItems(f: Transaction -> bool) returns (removed: seq<Transaction>)
      requires Keyed(items)
      modifies this
      ensures Keyed(items) && index == old(index)
      ensures items == Without(old(items), f)
      ensures Collects(Matching(old(items), f), removed)
      ensures cache == if removed == [] then old(cache) else None
    {
      hide Split, Collects, Keyed;
      removed := [];
      ghost var gone: Items := map[];
      NothingGone(items);
      var todo := items.Keys;
      while todo != {}
        invariant todo <= items.Keys && index == old(index) && cache == old(cache)
        invariant Keyed(items) && Split(old(items), items, gone) && Collects(gone, removed)
        invariant forall n | n in gone :: f(gone[n])
        invariant forall n | n in items && n !in todo :: !f(items[n])
        decreases |todo|
      {
        var nonce :| nonce in todo;
        var tx := items[nonce];
        if f(tx) {
          KeyedAt(items, nonce);
          StillHeld(old(items), items, gone, nonce);
          MoveOne(old(items), items, gone, nonce);
          CollectMore(gone, removed, nonce, tx);
          gone := gone[nonce := tx];
          removed := removed + [tx];
          items := items - {nonce};
        }
        todo := todo - {nonce};
      }
      FilterDone(old(items), items, gone, f);
      if |removed| > 0 {
        cache := None;
      }
    }

    /** Rebuilds the heap from the map, in whatever order the map is walked. */
    method Reheap()
      requires Keyed(items)
      modifies this
      ensures Valid() && items == old(items) && cache == None
    {
      var idx: seq<nat> := [];
      var todo := items.Keys;
      while todo != {}
        invariant todo <= items.Keys && items == old(items)
        invariant multiset(idx) == multiset(items.Keys - todo)
        decreases |todo|
      {
        var nonce :| nonce in todo;
        idx := idx + [nonce];
        assert items.Keys - (todo - {nonce}) == (items.Keys - todo) + {nonce};
        todo := todo - {nonce};
      }
      assert items.Keys - {} == items.Keys;
      NonceLessIsOrder();
      index := Heap.Init(idx, NONCE_LESS);
      cache := None;
    }

    /** Keeps the `threshold` lowest nonces and returns the rest, highest nonce first. */
    method Cap(threshold: nat) returns (drops: seq<Transaction>)
      requires Valid()
      modifies this
      ensures Valid()
      ensures items == LowestPart(old(items), threshold)
      ensures Collects(HighestPart(old(items), threshold), drops) && Descending(drops)
      ensures old(cache).Some? ==> cache.Some?
    {
      if |items| <= threshold {
        CapNothing(items, threshold);
        return [];
      }
      drops := CapItems(threshold);
      if cache.Some? {
        ListingHead(old(items), cache.value, threshold, drops);
        cache := Some(cache.value[..|cache.value| - |drops|]);
      }
    }

    /** The part of Cap that cuts the map and the heap: sort the index, drop from its end, rebuild. */
    method CapItems(threshold: nat) returns (drops: seq<Transaction>)
      requires Keyed(items) && Indexed(index, items) && threshold < |items|
      modifies this
      ensures Keyed(items) && Indexed(index, items) && cache == old(cache)
      ensures items == LowestPart(old(items), threshold)
      ensures Collects(HighestPart(old(items), threshold), drops) && Descending(drops)
    {
      IndexMembers(index, items);
      var sorted := SortBy(index, (n: nat) => n);
      SortedIndex(sorted, items);
      drops := DropFrom(sorted, threshold);
      NonceLessIsOrder();
      index := Heap.Init(sorted[..threshold], NONCE_LESS);
    }

    method DropFrom(sorted: seq<nat>, threshold: nat) returns (drops: seq<Transaction>)
      requires Keyed(items) && SortedKeys(sorted, items) && threshold < |items|
      modifies this
      ensures Keyed(items) && cache == old(cache)
      ensures items == LowestPart(old(items), threshold) && multiset(sorted[..threshold]) == multiset(items.Keys)
      ensures Collects(HighestPart(old(items), threshold), drops) && Descending(drops)
    {
      drops := [];
      ghost var gone: Items := map[];
      var size := |items|;
      while size > threshold
        invariant threshold <= size <= |sorted| && cache == old(cache) && Keyed(items)
        invariant Split(old(items), items, gone) && Collects(gone, drops)
        invariant HoldsPrefix(items, sorted, size) && DropsAbove(drops, sorted, size)
      {
        var nonce := sorted[size - 1];
        MoveOne(old(items), items, gone, nonce);
        CollectMore(gone, drops, nonce, items[nonce]);
        DropStep(items, sorted, size, drops);
        gone := gone[nonce := items[nonce]];
        drops := drops + [items[nonce]];
        items := items - {nonce};
        size := size - 1;
      }
      CapDone(old(items), items, gone, sorted, threshold);
    }

    method Remove(nonce: nat) returns (found: bool)
      requires Valid()
      modifies this
      ensures Valid()
      ensures found <==> nonce in old(items)
      ensures items == old(items) - {nonce}
      ensures !found ==> cache == old(cache)
    {
      if nonce !in items {
        assert items == items - {nonce};
        return false;
      }
      IndexMembers(index, items);
      var i := 0;
      while index[i] != nonce
        invariant 0 <= i < |index| && index == old(index) && items == old(items)
        invariant nonce in index[i..]
        decreases |index| - i
      {
        i := i + 1;
      }
      NonceLessIsOrder();
      index := Heap.RemoveAt(index, NONCE_LESS, i);
      items := items - {nonce};
      assert items.Keys == old(items).Keys - {nonce};
      cache := None;
      return true;
    }

    /** Takes out the maximal consecutive run from the lowest nonce, provided that nonce is at most `start`. */
    method Ready(start: nat) returns (ready: seq<Transaction>)
      requires Valid()
      modifies this
      ensures Valid()
      ensures items == NotReadyPart(old(items), start)
      ensures IsListing(ReadyPart(old(items), start), ready)
      ensures ready == [] ==> cache == old(cache)
    {
      IndexMembers(index, items);
      if |index| == 0 || index[0] > start {
        NothingReady(items, start);
        return [];
      }
      ready := TakeRun(start);
      cache := None;
    }

    method TakeRun(ghost start: nat) returns (ready: seq<Transaction>)
      requires Keyed(items) && Indexed(index, items) && |index| > 0 && IsMin(items.Keys, index[0]) && index[0] <= start
      modifies this
      ensures Keyed(items) && Indexed(index, items) && ready != []
      ensures items == NotReadyPart(old(items), start)
      ensures IsListing(ReadyPart(old(items), start), ready)
    {
      ready := [];
      ghost var gone: Items := map[];
      var next := index[0];
      while |index| > 0 && index[0] == next
        invariant Keyed(items) && Indexed(index, items) && (|index| > 0 ==> IsMin(items.Keys, index[0]))
        invariant Split(old(items), items, gone) && IsListing(gone, ready) && LowerThan(gone, items)
        invariant old(index)[0] <= next && IsInterval(gone.Keys, old(index)[0], next)
        invariant next == old(index)[0] ==> index == old(index)
        invariant next != old(index)[0] ==> ready != []
        decreases |index|
      {
        MoveOne(old(items), items, gone, next);
        ListMore(gone, ready, items, next);
        IntervalMore(gone, old(index)[0], next, items[next]);
        gone := gone[next := items[next]];
        var tx := PopLowest();
        ready := ready + [tx];
        next := next + 1;
      }
      IndexMembers(index, items);
      RunTaken(old(items), items, gone, start, old(index)[0], next);
    }

    method Len() returns (n: nat)
      ensures n == |items|
    {
      n := |items|;
    }

    /** The sorted listing, from the cache when there is one. */
    method Flatten() returns (txs: seq<Transaction>)
      requires Valid()
      modifies this
      ensures Valid() && items == old(items)
      ensures IsListing(items, txs) && cache == Some(txs)
    {
      if cache.None? {
        var all := Gather();
        var sorted := SortBy(all, (t: Transaction) => t.nonce);
        SortedIsListing(items, all, sorted);
        cache := Some(sorted);
      }
      txs := cache.value;
    }

    /** All transactions, in the order the map happens to be walked. */
    method Gather() returns (all: seq<Transaction>)
      requires Keyed(items)
      ensures Collects(items, all)
    {
      all := [];
      ghost var rest, done: Items := items, map[];
      var todo := items.Keys;
      while todo != {}
        invariant todo == rest.Keys && Split(items, rest, done) && Collects(done, all)
        decreases |todo|
      {
        var nonce :| nonce in todo;
        MoveOne(items, rest, done, nonce);
        CollectMore(done, all, nonce, items[nonce]);
        rest, done := rest - {nonce}, done[nonce := items[nonce]];
        all := all + [items[nonce]];
        todo := todo - {nonce};
      }
      assert done == items;
    }

    /** The transaction with the highest nonce. */
    method LastElement() returns (tx: Transaction)
      requires Valid() && items != map[]
      modifies this
      ensures Valid() && items == old(items)
      ensures tx.nonce in items && items[tx.nonce] == tx && forall n | n in items :: n <= tx.nonce
    {
      var txs := Flatten();
      LastIsLargest(items, txs);
      tx := txs[|txs| - 1];
    }
  }

  /** `m0` is the disjoint union of `m` and `gone`. */
  ghost predicate Split(m0: Items, m: Items, gone: Items) {
    && (forall n | n in m :: n in m0 && m0[n] == m[n] && n !in gone)
    && (forall n | n in gone :: n in m0 && m0[n] == gone[n])
    && (forall n | n in m0 :: n in m || n in gone)
  }

  ghost predicate LowerThan(low: Items, high: Items) {
    forall a, b | a in low && b in high :: a < b
  }

  lemma NothingGone(m: Items)
    ensures Split(m, m, map[]) && IsListing(map[], []) && Collects(map[], []) && LowerThan(map[], m)
  {
  }

  lemma KeyedAt(m: Items, n: nat)
    requires Keyed(m) && n in m
    ensures m[n].nonce == n && Keyed(m - {n})
  {
  }

  lemma StillHeld(m0: Items, m: Items, gone: Items, n: nat)
    requires Split(m0, m, gone) && n in m
    ensures n !in gone
  {
  }

  lemma LowestHeld(m0: Items, m: Items, gone: Items, n: nat)
    requires Split(m0, m, gone) && IsMin(m.Keys, n) && Keyed(m)
    ensures n in m && n !in gone && m[n].nonce == n
  {
  }

  lemma ForwardDone(m0: Items, m: Items, gone: Items, t: nat, index: seq<nat>)
    requires Split(m0, m, gone) && (forall n | n in gone :: n < t) && Indexed(index, m)
    requires |index| == 0 || index[0] >= t
    ensures m == From(m0, t) && gone == Below(m0, t)
  {
    IndexMembers(index, m);
    assert forall n | n in m :: n >= t;
  }

  lemma FilterDone(m0: Items, m: Items, gone: Items, f: Transaction -> bool)
    requires Split(m0, m, gone) && (forall n | n in gone :: f(gone[n])) && (forall n | n in m :: !f(m[n]))
    ensures m == Without(m0, f) && gone == Matching(m0, f)
  {
  }

  lemma MoveOne(m0: Items, m: Items, gone: Items, n: nat)
    requires Split(m0, m, gone) && n in m
    ensures Split(m0, m - {n}, gone[n := m[n]])
  {
  }

  lemma CollectMore(m: Items, s: seq<Transaction>, n: nat, tx: Transaction)
    requires Collects(m, s) && n !in m && tx.nonce == n
    ensures Collects(m[n := tx], s + [tx])
  {
  }

  /** Moving the lowest remaining nonce extends the sorted listing of what is gone. */
  lemma ListMore(gone: Items, s: seq<Transaction>, m: Items, n: nat)
    requires IsListing(gone, s) && LowerThan(gone, m) && IsMin(m.Keys, n) && n !in gone && m[n].nonce == n
    ensures IsListing(gone[n := m[n]], s + [m[n]]) && LowerThan(gone[n := m[n]], m - {n})
  {
    CollectMore(gone, s, n, m[n]);
  }

  ghost predicate HoldsPrefix(m: Items, sorted: seq<nat>, size: nat) {
    size <= |sorted| && forall i | 0 <= i < |sorted| :: sorted[i] in m <==> i < size
  }

  ghost predicate DropsAbove(drops: seq<Transaction>, sorted: seq<nat>, size: nat) {
    Descending(drops) && forall i | 0 <= i < |drops| :: size < |sorted| && drops[i].nonce >= sorted[size]
  }

  lemma DropStep(m: Items, sorted: seq<nat>, size: nat, drops: seq<Transaction>)
    requires forall i, j | 0 <= i < j < |sorted| :: sorted[i] < sorted[j]
    requires 0 < size && HoldsPrefix(m, sorted, size) && DropsAbove(drops, sorted, size) && Keyed(m)
    ensures HoldsPrefix(m - {sorted[size - 1]}, sorted, size - 1)
    ensures DropsAbove(drops + [m[sorted[size - 1]]], sorted, size - 1)
  {
    assert sorted[size - 1] in m;
  }

  lemma ListingTail(m: Items, s: seq<Transaction>, threshold: nat, removed: seq<Transaction>)
    requires Keyed(m) && IsListing(m, s) && IsListing(Below(m, threshold), removed)
    ensures |removed| <= |s| && IsListing(From(m, threshold), s[|removed|..])
  {
    var p := SplitPoint(s, threshold);
    ListingSplit(m, s, threshold, p);
  }

  lemma SplitPoint(s: seq<Transaction>, t: nat) returns (p: nat)
    requires Ascending(s)
    ensures p <= |s|
    ensures forall i | 0 <= i < |s| :: s[i].nonce < t <==> i < p
  {
    p := 0;
    while p < |s| && s[p].nonce < t
      invariant p <= |s| && forall i | 0 <= i < p :: s[i].nonce < t
    {
      p := p + 1;
    }
  }

  lemma ListingSplit(m: Items, s: seq<Transaction>, t: nat, p: nat)
    requires Keyed(m) && IsListing(m, s) && p <= |s|
    requires forall i | 0 <= i < |s| :: s[i].nonce < t <==> i < p
    ensures IsListing(Below(m, t), s[..p]) && IsListing(From(m, t), s[p..])
  {
    PartCounts(m, t);
    PartHeld(m, s, Below(m, t), 0, p);
    PartHeld(m, s, From(m, t), p, |s|);
    PartListing(m, s, Below(m, t), 0, p);
    PartListing(m, s, From(m, t), p, |s|);
    assert s[0..p] == s[..p] && s[p..|s|] == s[p..];
    hide IsListing;
  }

  lemma PartCounts(m: Items, t: nat)
    ensures |Below(m, t)| + |From(m, t)| == |m|
  {
    assert m.Keys == Below(m, t).Keys + From(m, t).Keys;
  }

  lemma PartListing(m: Items, s: seq<Transaction>, part: Items, i: nat, j: nat)
    requires IsListing(m, s) && i <= j <= |s| && |part| == j - i
    requires forall k | i <= k < j :: s[k].nonce in part && part[s[k].nonce] == m[s[k].nonce]
    ensures IsListing(part, s[i..j])
  {
  }

  /** A stretch of a listing whose nonces are all in `part` is no longer than `part`. */
  lemma PartHeld(m: Items, s: seq<Transaction>, part: Items, i: nat, j: nat)
    requires IsListing(m, s) && i <= j <= |s|
    requires forall k | i <= k < j :: s[k].nonce in part
    ensures |s[i..j]| <= |part|
  {
    DistinctNonces(s[i..j]);
    SubsetCardinality(Nonces(s[i..j]), part.Keys);
  }

  ghost predicate SortedKeys(sorted: seq<nat>, m: Items) {
    && (forall i, j | 0 <= i < j < |sorted| :: sorted[i] < sorted[j])
    && (forall n: nat :: n in sorted <==> n in m)
    && |sorted| == |m|
  }

  lemma SortedIndex(sorted: seq<nat>, m: Items)
    requires multiset(sorted) == multiset(m.Keys)
    requires forall i, j | 0 <= i < j < |sorted| :: sorted[i] <= sorted[j]
    ensures SortedKeys(sorted, m)
  {
    assert |multiset(sorted)| == |multiset(m.Keys)|;
    assert forall n: nat :: n in sorted <==> n in multiset(sorted);
    forall i, j | 0 <= i < j < |sorted|
      ensures sorted[i] < sorted[j]
    {
      if sorted[i] == sorted[j] {
        HeldTwice(sorted, i, j);
      }
    }
  }

  lemma CapDone(m0: Items, m: Items, gone: Items, sorted: seq<nat>, k: nat)
    requires Split(m0, m, gone) && SortedKeys(sorted, m0) && k <= |sorted|
    requires HoldsPrefix(m, sorted, k)
    ensures m == LowestPart(m0, k) && gone == HighestPart(m0, k)
    ensures multiset(sorted[..k]) == multiset(m.Keys)
  {
    hide SortedKeys, HoldsPrefix, Lowest;
    PrefixIsLowest(m0, m, sorted, k);
  }

  lemma PrefixIsLowest(m0: Items, m: Items, sorted: seq<nat>, k: nat)
    requires m.Keys <= m0.Keys && SortedKeys(sorted, m0) && HoldsPrefix(m, sorted, k)
    ensures multiset(sorted[..k]) == multiset(m.Keys) && m.Keys == Lowest(m0.Keys, k)
  {
    PrefixKeys(m0, m, sorted, k);
    DistinctMultiset(sorted[..k], m.Keys);
    LowestUnique(m0.Keys, m.Keys);
  }

  lemma PrefixKeys(m0: Items, m: Items, sorted: seq<nat>, k: nat)
    requires m.Keys <= m0.Keys && SortedKeys(sorted, m0) && HoldsPrefix(m, sorted, k)
    ensures forall n: nat :: n in sorted[..k] <==> n in m.Keys
    ensures LowerPart(m0.Keys, m.Keys)
  {
    forall n: nat
      ensures n in sorted[..k] <==> n in m.Keys
    {
      if n in m.Keys {
        var i :| 0 <= i < |sorted| && sorted[i] == n;
        assert sorted[..k][i] == n;
      }
    }
    forall a, b | a in m.Keys && b in m0.Keys && b !in m.Keys
      ensures a < b
    {
      var i :| 0 <= i < |sorted| && sorted[i] == a;
      var j :| 0 <= j < |sorted| && sorted[j] == b;
    }
  }

  lemma {:induction false} DistinctMultiset(s: seq<nat>, keys: set<nat>)
    requires forall i, j | 0 <= i < j < |s| :: s[i] < s[j]
    requires forall n: nat :: n in s <==> n in keys
    ensures multiset(s) == multiset(keys) && |keys| == |s|
    decreases |s|
  {
    if |s| == 0 {
      assert keys == {};
    } else {
      var k := |s| - 1;
      assert s == s[..k] + [s[k]];
      forall n: nat
        ensures n in s[..k] <==> n in keys - {s[k]}
      {
        if n in keys - {s[k]} {
          var i :| 0 <= i < |s| && s[i] == n;
          assert s[..k][i] == n;
        }
      }
      DistinctMultiset(s[..k], keys - {s[k]});
      assert keys == (keys - {s[k]}) + {s[k]};
    }
  }

  lemma CapNothing(m: Items, k: nat)
    requires |m| <= k
    ensures m == LowestPart(m, k) && HighestPart(m, k) == map[]
  {
    var r := Lowest(m.Keys, k);
    LowestIsLowerPart(m.Keys, k);
    if r != m.Keys { StrictSubset(r, m.Keys); }
  }

  lemma ListingHead(m: Items, s: seq<Transaction>, k: nat, drops: seq<Transaction>)
    requires Keyed(m) && IsListing(m, s) && k < |m| && Collects(HighestPart(m, k), drops)
    ensures |drops| <= |s| && IsListing(LowestPart(m, k), s[..|s| - |drops|])
  {
    PartSizes(m, k);
    LowestListing(m, s, k);
  }

  lemma PartSizes(m: Items, k: nat)
    requires k < |m|
    ensures |LowestPart(m, k)| == k && |HighestPart(m, k)| == |m| - k
  {
    LowestIsLowerPart(m.Keys, k);
    assert LowestPart(m, k).Keys == Lowest(m.Keys, k);
    assert m.Keys == LowestPart(m, k).Keys + HighestPart(m, k).Keys;
  }

  lemma LowestListing(m: Items, s: seq<Transaction>, k: nat)
    requires Keyed(m) && IsListing(m, s) && k < |s|
    ensures IsListing(LowestPart(m, k), s[..k])
  {
    var t := s[k].nonce;
    ListingSplit(m, s, t, k);
    BelowIsLowest(m, t);
  }

  lemma BelowIsLowest(m: Items, t: nat)
    ensures Below(m, t) == LowestPart(m, |Below(m, t)|)
  {
    LowestUnique(m.Keys, Below(m, t).Keys);
  }

  lemma NothingReady(m: Items, start: nat)
    requires m == map[] || Min(m.Keys) > start
    ensures ReadyPart(m, start) == map[] && NotReadyPart(m, start) == m
  {
  }

  /** `s` holds the numbers from `lo` up to but not including `hi`. */
  ghost predicate IsInterval(s: set<nat>, lo: nat, hi: nat) {
    && (forall n | n in s :: lo <= n < hi)
    && (forall n: nat | lo <= n < hi :: n in s)
  }

  lemma IntervalMore(m: Items, lo: nat, hi: nat, tx: Transaction)
    requires IsInterval(m.Keys, lo, hi) && lo <= hi
    ensures IsInterval(m[hi := tx].Keys, lo, hi + 1)
  {
  }

  lemma RunTaken(m0: Items, m: Items, gone: Items, start: nat, lowest: nat, next: nat)
    requires Split(m0, m, gone) && IsInterval(gone.Keys, lowest, next)
    requires IsMin(m0.Keys, lowest) && lowest <= start && lowest < next
    requires forall n | n in m :: next < n
    ensures m == NotReadyPart(m0, start) && gone == ReadyPart(m0, start)
  {
    assert next !in m0.Keys;
    forall n | n in m0
      ensures InRun(m0.Keys, n) <==> n in gone
    {
      RunMember(m0.Keys, lowest, n, next);
    }
  }

  lemma RunMember(s: set<nat>, lowest: nat, n: nat, next: nat)
    requires IsMin(s, lowest) && n in s && next !in s && lowest < next
    requires forall k | lowest <= k < next :: k in s
    ensures InRun(s, n) <==> n < next
  {
    assert Min(s) == lowest;
  }

  lemma SortedIsListing(m: Items, s: seq<Transaction>, r: seq<Transaction>)
    requires Collects(m, s) && multiset(r) == multiset(s) && |r| == |s|
    requires forall i, j | 0 <= i < j < |r| :: r[i].nonce <= r[j].nonce
    ensures IsListing(m, r)
  {
    assert forall t :: t in r <==> t in multiset(r);
    assert forall t :: t in s <==> t in multiset(s);
    forall i | 0 <= i < |r|
      ensures r[i].nonce in m && m[r[i].nonce] == r[i]
    {
      assert r[i] in s;
    }
    forall i, j | 0 <= i < j < |r|
      ensures r[i].nonce < r[j].nonce
    {
      if r[i].nonce == r[j].nonce {
        assert r[i] == r[j];
        HeldTwice(r, i, j);
        OnceInMultiset(s, r[i]);
      }
    }
  }

  lemma {:induction false} OnceInMultiset(s: seq<Transaction>, t: Transaction)
    requires forall i, j | 0 <= i < j < |s| :: s[i].nonce != s[j].nonce
    ensures multiset(s)[t] <= 1
    decreases |s|
  {
    if |s| > 0 {
      var k := |s| - 1;
      assert s == s[..k] + [s[k]];
      OnceInMultiset(s[..k], t);
      if s[k] == t {
        assert t !in s[..k];
      }
    }
  }
}
