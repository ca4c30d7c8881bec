/** txPricedList: the remote transactions of the pool in two price heaps, with stale entries left in place until found.
    */
module PricedLists {
  import opened Options
  import opened Types
  import opened Currency
  import opened PriceHeaps
  import Lookup
  import NonceMap

  const URGENT_RATIO := 4
  const FLOATING_RATIO := 1

  function SumSlots(txs: seq<Transaction>): nat {
    if txs == [] then 0 else SumSlots(txs[..|txs| - 1]) + txs[|txs| - 1].Slots()
  }

  predicate Live(remotes: Lookup.Known, tx: Transaction) {
    tx.hash in remotes
  }

  /** Going from `before` to `after` plus `drop`, only stale entries got lost, and `drop` is live. */
  ghost predicate Conserved(remotes: Lookup.Known, before: multiset<Transaction>, after: multiset<Transaction>,
                            drop: seq<Transaction>) {
    && after + multiset(drop) <= before
    && (forall tx | Live(remotes, tx) :: after[tx] + multiset(drop)[tx] == before[tx])
    && (forall tx | tx in drop :: Live(remotes, tx))
  }

  /** What is dropped twice was tracked twice, and what is dropped stays tracked just when not all its entries went. */
  lemma DroppedAsTracked(remotes: Lookup.Known, before: multiset<Transaction>, after: multiset<Transaction>,
                         drop: seq<Transaction>)
    requires Conserved(remotes, before, after, drop)
    ensures forall i, j | 0 <= i < j < |drop| && drop[i] == drop[j] :: before[drop[i]] >= 2
    ensures forall tx | tx in drop :: tx in before && (tx in after <==> multiset(drop)[tx] < before[tx])
  {
    forall i, j | 0 <= i < j < |drop| && drop[i] == drop[j]
      ensures before[drop[i]] >= 2
    {
      NonceMap.HeldTwice(drop, i, j);
      assert drop[i] in drop;
    }
    forall tx | tx in drop
      ensures tx in before && (tx in after <==> multiset(drop)[tx] < before[tx])
    {
      assert tx in multiset(drop);
    }
  }

  /** Moving a live transaction between the heaps, or losing a stale one, conserves. */
  lemma LoseStale(remotes: Lookup.Known, before: multiset<Transaction>, after: multiset<Transaction>,
                  drop: seq<Transaction>, x: Transaction)
    requires Conserved(remotes, before, after, drop) && x in after && !Live(remotes, x)
    ensures Conserved(remotes, before, after - multiset{x}, drop)
  {
  }

  lemma DropOne(remotes: Lookup.Known, before: multiset<Transaction>, after: multiset<Transaction>,
                drop: seq<Transaction>, x: Transaction)
    requires Conserved(remotes, before, after, drop) && x in after && Live(remotes, x)
    ensures Conserved(remotes, before, after - multiset{x}, drop + [x])
    ensures (drop + [x])[..|drop + [x]| - 1] == drop && SumSlots(drop + [x]) == SumSlots(drop) + x.Slots()
  {
    assert (drop + [x])[..|drop + [x]| - 1] == drop;
    assert multiset(drop + [x]) == multiset(drop) + multiset{x};
  }

  /** `x` is the first of its currency's heap, and where prices can be compared nothing held is cheaper. */
  ghost predicate CheapestIn(ctx: Context, m: Heaps, x: Transaction) {
    && x in All(m) && IsRoot(m, x) && LeastOfItsKind(m, x)
    && (Comparable(ctx, m) ==> forall y | y in All(m) :: Key(y) in m && IsCheaper(ctx, m, x, y))
  }

  /** Both heaps at some point of a Discard. */
  datatype Moment = Moment(urgent: Heaps, floating: Heaps)

  /** What a Discard leaves alone: the rates of both heaps, and the minimums for new floating ones. */
  datatype Pricing = Pricing(urgentCtx: Context, floatingCtx: Context, minimums: map<Option<Address>, nat>)

  /** The cheapest was taken off a heap. */
  ghost predicate Popped(ctx: Context, m: Heaps, m': Heaps, x: Transaction) {
    CheapestIn(ctx, m, x) && SameFees(m, m') && All(m') == All(m) - multiset{x}
  }

  ghost predicate Pushed(minimums: map<Option<Address>, nat>, m: Heaps, m': Heaps, x: Transaction) {
    SameFees(WithHeapFor(m, minimums, x), m') && All(m') == All(m) + multiset{x}
  }

  /** The urgent heap holds more than four times what the floating one does. */
  ghost predicate UrgentHeavy(m: Moment) {
    |All(m.urgent)| * FLOATING_RATIO > |All(m.floating)| * URGENT_RATIO
  }

  /** One step: the cheapest urgent entry moves to the floating heap while the urgent one is too large, and otherwise
      the cheapest floating entry goes. A stale entry just goes. */
  ghost predicate DiscardStep(p: Pricing, remotes: Lookup.Known, m: Moment, m': Moment, x: Transaction) {
    if UrgentHeavy(m) then
      && Popped(p.urgentCtx, m.urgent, m'.urgent, x)
      && if Live(remotes, x) then Pushed(p.minimums, m.floating, m'.floating, x) else m'.floating == m.floating
    else Popped(p.floatingCtx, m.floating, m'.floating, x) && m'.urgent == m.urgent
  }

  /** In sizes: while the urgent heap holds more than four times what the floating one does, only the urgent one loses,
      and after that only the floating one. */
  lemma StepSizes(p: Pricing, remotes: Lookup.Known, m: Moment, m': Moment, x: Transaction)
    requires DiscardStep(p, remotes, m, m', x)
    ensures if |All(m.urgent)| > 4 * |All(m.floating)|
            then |All(m'.urgent)| == |All(m.urgent)| - 1
                 && |All(m'.floating)| == |All(m.floating)| + (if x.hash in remotes then 1 else 0)
            else |All(m'.urgent)| == |All(m.urgent)| && |All(m'.floating)| == |All(m.floating)| - 1
  {
    hide All;
  }

  /** What a step drops. */
  ghost function Taken(remotes: Lookup.Known, m: Moment, x: Transaction): seq<Transaction> {
    if !UrgentHeavy(m) && Live(remotes, x) then [x] else []
  }

  /** Every entry is in the heap of its currency, and every heap is in order. */
  ghost predicate WellKept(m: Moment) {
    Placed(m.urgent) && Heaped(m.urgent) && Placed(m.floating) && Heaped(m.floating)
  }

  ghost predicate DiscardRun(p: Pricing, remotes: Lookup.Known, moments: seq<Moment>, popped: seq<Transaction>) {
    && |moments| == |popped| + 1
    && (forall i | 0 <= i < |moments| :: WellKept(moments[i]))
    && forall i | 0 <= i < |popped| :: DiscardStep(p, remotes, moments[i], moments[i + 1], popped[i])
  }

  /** What a run drops, in order. */
  ghost function DropsOf(remotes: Lookup.Known, moments: seq<Moment>, popped: seq<Transaction>): seq<Transaction>
    requires |popped| < |moments|
  {
    if popped == [] then []
    else
      var i := |popped| - 1;
      DropsOf(remotes, moments, popped[..i]) + Taken(remotes, moments[i], popped[i])
  }

  lemma {:induction false} DropsOfExtends(remotes: Lookup.Known, moments: seq<Moment>, more: seq<Moment>,
                                          popped: seq<Transaction>)
    requires |popped| < |moments|
    ensures DropsOf(remotes, moments + more, popped) == DropsOf(remotes, moments, popped)
    decreases |popped|
  {
    if popped != [] { DropsOfExtends(remotes, moments, more, popped[..|popped| - 1]); }
  }

  lemma OneMoreStep(p: Pricing, remotes: Lookup.Known, moments: seq<Moment>, popped: seq<Transaction>, m: Moment,
                    x: Transaction)
    requires DiscardRun(p, remotes, moments, popped) && DiscardStep(p, remotes, moments[|popped|], m, x) && WellKept(m)
    ensures DiscardRun(p, remotes, moments + [m], popped + [x])
    ensures DropsOf(remotes, moments + [m], popped + [x])
            == DropsOf(remotes, moments, popped) + Taken(remotes, moments[|popped|], x)
  {
    hide DiscardStep, Taken, WellKept;
    assert (popped + [x])[..|popped|] == popped;
    DropsOfExtends(remotes, moments, [m], popped);
  }

  lemma NoStep(p: Pricing, remotes: Lookup.Known, m: Moment)
    requires WellKept(m)
    ensures DiscardRun(p, remotes, [m], []) && DropsOf(remotes, [m], []) == []
  {
  }

  // ---------- Dropping in price order ----------

  /** Step `i` of a run drops a transaction. */
  ghost predicate DropsAt(remotes: Lookup.Known, moments: seq<Moment>, popped: seq<Transaction>, i: nat)
    requires i < |popped| < |moments|
  {
    !UrgentHeavy(moments[i]) && Live(remotes, popped[i])
  }

  /** A live entry of the floating heap stays there until it is dropped. */
  lemma {:induction false} StaysFloating(p: Pricing, remotes: Lookup.Known, moments: seq<Moment>,
                                         popped: seq<Transaction>, k: nat, i: nat, y: Transaction)
    requires DiscardRun(p, remotes, moments, popped) && k <= i <= |popped|
    requires Live(remotes, y) && y in All(moments[k].floating)
    requires forall j | k <= j < i && DropsAt(remotes, moments, popped, j) :: popped[j] != y
    ensures y in All(moments[i].floating)
    decreases i
  {
    hide All, WellKept, CheapestIn, SameFees;
    if k < i {
      StaysFloating(p, remotes, moments, popped, k, i - 1, y);
      assert DiscardStep(p, remotes, moments[i - 1], moments[i], popped[i - 1]);
      if !UrgentHeavy(moments[i - 1]) {
        assert popped[i - 1] != y by {
          if Live(remotes, popped[i - 1]) { assert DropsAt(remotes, moments, popped, i - 1); }
        }
      }
    }
  }

  /** Prices can be compared in both heaps, and every urgent currency has a floating heap. */
  ghost predicate AllComparable(p: Pricing, m: Moment) {
    && Comparable(p.urgentCtx, m.urgent) && Comparable(p.floatingCtx, m.floating) && m.urgent.Keys <= m.floating.Keys
  }

  /** Then they can be at every later point, with the same base fees. */
  lemma {:induction false} StaysComparable(p: Pricing, remotes: Lookup.Known, moments: seq<Moment>,
                                           popped: seq<Transaction>, i: nat)
    requires DiscardRun(p, remotes, moments, popped) && i <= |popped| && AllComparable(p, moments[0])
    ensures AllComparable(p, moments[i]) && SameFees(moments[0].floating, moments[i].floating)
    decreases i
  {
    if i > 0 {
      hide All, Comparable, IsCheaper, SameFees, Placed, Heaped, CheapestIn;
      StaysComparable(p, remotes, moments, popped, i - 1);
      assert DiscardStep(p, remotes, moments[i - 1], moments[i], popped[i - 1]) && WellKept(moments[i - 1]);
      StepComparable(p, remotes, moments[i - 1], moments[i], popped[i - 1]);
      FeesThen(moments[0].floating, moments[i - 1].floating, moments[i].floating);
    } else {
      assert SameFees(moments[0].floating, moments[0].floating);
    }
  }

  lemma FeesThen(m: Heaps, m': Heaps, m'': Heaps)
    requires SameFees(m, m') && SameFees(m', m'')
    ensures SameFees(m, m'')
  {
  }

  lemma StepComparable(p: Pricing, remotes: Lookup.Known, m: Moment, m': Moment, x: Transaction)
    requires DiscardStep(p, remotes, m, m', x) && WellKept(m) && WellKept(m') && AllComparable(p, m)
    ensures AllComparable(p, m') && SameFees(m.floating, m'.floating)
  {
    hide All, IsCheaper, LeastOfItsKind, Heaped;
    if UrgentHeavy(m) {
      StillComparable(p.urgentCtx, m.urgent, m'.urgent);
      if Live(remotes, x) {
        RootIsPriced(p.urgentCtx, m.urgent, x);
        ComparableMore(p.floatingCtx, m.floating, m'.floating, x);
      }
    } else {
      StillComparable(p.floatingCtx, m.floating, m'.floating);
    }
  }

  lemma ComparableMore(ctx: Context, m: Heaps, m': Heaps, x: Transaction)
    requires Placed(m) && Placed(m') && Comparable(ctx, m) && SameFees(m, m') && All(m') == All(m) + multiset{x}
    requires x.feeCurrency == Key(x)
    ensures Comparable(ctx, m')
  {
    hide All;
    forall k, tx | k in m' && tx in m'[k].list
      ensures tx.feeCurrency == k
    {
      AllMember(m', tx);
      if tx != x { AllMember(m, tx); }
      assert Key(tx) == k;
    }
  }

  /** While prices can be compared, what is left in the floating heap is no cheaper than anything dropped since it could
      have been taken itself. */
  lemma KeptAreNoCheaper(p: Pricing, remotes: Lookup.Known, moments: seq<Moment>, popped: seq<Transaction>, k: nat,
                         i: nat, y: Transaction)
    requires DiscardRun(p, remotes, moments, popped)
    requires k <= i < |popped| && DropsAt(remotes, moments, popped, i) && Comparable(p.floatingCtx, moments[i].floating)
    requires Live(remotes, y) && y in All(moments[k].floating)
    requires forall j | k <= j < |popped| && DropsAt(remotes, moments, popped, j) :: popped[j] != y
    ensures var m := moments[i].floating;
            Key(popped[i]) in m && Key(y) in m && IsCheaper(p.floatingCtx, m, popped[i], y)
  {
    hide All, Comparable, IsCheaper, WellKept, LeastOfItsKind;
    StaysFloating(p, remotes, moments, popped, k, i, y);
    assert DiscardStep(p, remotes, moments[i], moments[i + 1], popped[i]);
  }

  class TxPricedList {
    const all: Lookup.TxLookup
    const maxStales: int
    const urgent: MultiCurrencyPriceHeap
    const floating: MultiCurrencyPriceHeap
    var stales: int

    ghost predicate Valid()
      reads this, urgent, floating
    {
      urgent != floating && urgent.Valid() && floating.Valid()
    }

    /** Everything tracked, with multiplicity. */
    ghost function Tracked(): multiset<Transaction>
      reads this, urgent, floating
    {
      urgent.Contents() + floating.Contents()
    }

    ghost function Now(): Moment
      reads this, urgent, floating
    {
      Moment(urgent.heaps, floating.heaps)
    }

    ghost function Prices(): Pricing
      reads this, urgent, floating
    {
      Pricing(urgent.ctx, floating.ctx, floating.minimums)
    }

    constructor (all: Lookup.TxLookup, ctx: Context, minimums: map<Option<Address>, nat>, maxStales: int)
      ensures Valid() && Tracked() == multiset{} && stales == 0 && this.all == all && this.maxStales == maxStales
      ensures fresh(urgent) && fresh(floating)
    {
      this.all, this.maxStales, stales := all, maxStales, 0;
      urgent := new MultiCurrencyPriceHeap(ctx, minimums);
      floating := new MultiCurrencyPriceHeap(ctx, minimums);
    }

    /** Tracks a remote transaction, without looking whether it is tracked already. So entries stay distinct exactly
        when it is not. */
    method Put(tx: Transaction, local: bool)
      requires Valid()
      modifies urgent`heaps
      ensures Valid() && Tracked() == old(Tracked()) + (if local then multiset{} else multiset{tx})
      ensures old(Distinct(Tracked())) ==> (Distinct(Tracked()) <==> local || tx !in old(Tracked()))
    {
      hide All, Placed, Heaped;
      if local {
        return;
      }
      if Distinct(Tracked()) { DistinctMore(Tracked(), tx); }
      urgent.Push(tx);
    }

    /** Takes the cheapest entry off a heap; a stale one is only counted. */
    method PopLive(heap: MultiCurrencyPriceHeap) returns (live: bool, x: Transaction)
      requires Valid() && heap in {urgent, floating} && heap.Contents() != multiset{}
      modifies `stales, heap`heaps
      ensures Valid() && Popped(heap.ctx, old(heap.heaps), heap.heaps, x) && x in old(heap.Contents())
      ensures heap.Contents() == old(heap.Contents()) - multiset{x}
      ensures live == Live(all.remotes, x) && stales == if live then old(stales) else old(stales) - 1
      ensures urgent != heap ==> urgent.heaps == old(urgent.heaps)
      ensures floating != heap ==> floating.heaps == old(floating.heaps)
    {
      hide All, Placed, Heaped, IsCheaper, Comparable, SameFees, LeastOfItsKind;
      ghost var before := heap.heaps;
      var tx := heap.Pop();
      x := tx.value;
      RootIsLeast(before, x);
      live := x.hash in all.remotes;
      if !live {
        stales := stales - 1;
      }
    }

    /** Finds the most underpriced transactions worth `slots` slots and stops tracking them; without `force` it is all
        or nothing. `considered` is what was found before deciding, `popped` all that was looked at for it, and
        `moments` are the heaps in between. */
    method Discard(slots: int, force: bool)
      returns (drop: seq<Transaction>, ok: bool, ghost considered: seq<Transaction>, ghost moments: seq<Moment>,
               ghost popped: seq<Transaction>)
      requires Valid()
      modifies `stales, urgent`heaps, floating`heaps
      ensures Valid() && Conserved(all.remotes, old(Tracked()), Tracked(), drop)
      ensures DiscardRun(Prices(), all.remotes, moments, popped) && moments[0] == old(Now())
      ensures considered == DropsOf(all.remotes, moments, popped)
      ensures considered != [] ==> SumSlots(considered[..|considered| - 1]) < slots
      ensures SumSlots(considered) < slots ==>
                forall tx | Live(all.remotes, tx) :: multiset(considered)[tx] == old(Tracked())[tx]
      ensures ok <==> force || SumSlots(considered) >= slots
      ensures drop == if ok then considered else []
      ensures ok ==> Now() == moments[|popped|]
      ensures forall tx | tx in considered :: Live(all.remotes, tx)
      ensures stales == old(stales) - (|old(Tracked())| - |Tracked()| - |drop|)
    {
      hide Conserved, SumSlots, MultiCurrencyPriceHeap.Valid, MultiCurrencyPriceHeap.Contents, DiscardStep, DiscardRun,
           DropsOf, Taken, WellKept;
      drop, moments, popped := [], [Now()], [];
      KeptNow(this);
      NothingDropped(all.remotes, Tracked());
      NoStep(Prices(), all.remotes, Now());
      var exhausted := false;
      while SumSlots(drop) < slots && !exhausted
        invariant Valid() && Conserved(all.remotes, old(Tracked()), Tracked(), drop)
        invariant drop != [] ==> SumSlots(drop[..|drop| - 1]) < slots
        invariant stales == old(stales) - (|old(Tracked())| - |Tracked()| - |drop|)
        invariant exhausted ==> Tracked() == multiset{}
        invariant |moments| == |popped| + 1 && moments[0] == old(Now()) && moments[|popped|] == Now()
        invariant DiscardRun(Prices(), all.remotes, moments, popped) && drop == DropsOf(all.remotes, moments, popped)
        decreases 2 * |urgent.Contents()| + |floating.Contents()|, !exhausted
      {
        ghost var x;
        drop, exhausted, x := DiscardOnce(old(Tracked()), drop);
        if !exhausted {
          KeptNow(this);
          OneMoreStep(Prices(), all.remotes, moments, popped, Now(), x.value);
          moments, popped := moments + [Now()], popped + [x.value];
        }
      }
      considered := drop;
      ok := true;
      AllConsidered(all.remotes, old(Tracked()), Tracked(), drop);
      if SumSlots(drop) < slots && !force {
        ghost var tracked := Tracked();
        PushAll(drop);
        PutBack(all.remotes, old(Tracked()), tracked, drop);
        drop, ok := [], false;
      }
    }

    /** One step: rebalance towards the floating heap, or drop its cheapest entry. */
    method DiscardOnce(ghost before: multiset<Transaction>, drop0: seq<Transaction>)
      returns (drop: seq<Transaction>, exhausted: bool, ghost popped: Option<Transaction>)
      requires Valid() && Conserved(all.remotes, before, Tracked(), drop0)
      modifies `stales, urgent`heaps, floating`heaps
      ensures Valid() && Conserved(all.remotes, before, Tracked(), drop)
      ensures exhausted <==> popped.None?
      ensures !exhausted ==> DiscardStep(Prices(), all.remotes, old(Now()), Now(), popped.value)
                             && drop == drop0 + Taken(all.remotes, old(Now()), popped.value)
      ensures drop == drop0 || (drop != [] && drop[..|drop| - 1] == drop0)
      ensures stales == old(stales) - (|old(Tracked())| - |Tracked()| - (|drop| - |drop0|))
      ensures exhausted ==> Tracked() == multiset{} && drop == drop0 && Now() == old(Now())
      ensures !exhausted ==>
                2 * |urgent.Contents()| + |floating.Contents()| < old(2 * |urgent.Contents()| + |floating.Contents()|)
    {
      hide Conserved, MultiCurrencyPriceHeap.Valid, Popped, Pushed, All, Live;
      drop, exhausted, popped := drop0, false, None;
      var urgentLen := urgent.Len();
      var floatingLen := floating.Len();
      if urgentLen * FLOATING_RATIO > floatingLen * URGENT_RATIO || FLOATING_RATIO == 0 {
        var x := Rebalance(before, drop);
        popped := Some(x);
      } else if floatingLen == 0 {
        exhausted := true;
      } else {
        var x;
        drop, x := DropCheapest(before, drop);
        popped := Some(x);
      }
    }

    /** Moves the cheapest urgent entry to the floating heap, unless it is stale. */
    method Rebalance(ghost before: multiset<Transaction>, ghost drop: seq<Transaction>) returns (x: Transaction)
      requires Valid() && Conserved(all.remotes, before, Tracked(), drop) && urgent.Contents() != multiset{}
      modifies `stales, urgent`heaps, floating`heaps
      ensures Valid() && Conserved(all.remotes, before, Tracked(), drop)
      ensures Popped(urgent.ctx, old(urgent.heaps), urgent.heaps, x)
      ensures if Live(all.remotes, x) then Pushed(floating.minimums, old(floating.heaps), floating.heaps, x)
              else floating.heaps == old(floating.heaps)
      ensures stales == old(stales) - (|old(Tracked())| - |Tracked()|)
      ensures 2 * |urgent.Contents()| + |floating.Contents()| < old(2 * |urgent.Contents()| + |floating.Contents()|)
    {
      hide Conserved, Live, MultiCurrencyPriceHeap.Valid, All, Popped, SameFees, WithHeapFor;
      ghost var tracked := Tracked();
      var live;
      live, x := PopLive(urgent);
      assert Tracked() == tracked - multiset{x};
      if live {
        floating.Push(x);
        assert Tracked() == tracked;
      } else {
        LoseStale(all.remotes, before, tracked, drop, x);
      }
    }

    /** Drops the cheapest floating entry, unless it is stale. */
    method DropCheapest(ghost before: multiset<Transaction>, drop0: seq<Transaction>)
      returns (drop: seq<Transaction>, x: Transaction)
      requires Valid() && Conserved(all.remotes, before, Tracked(), drop0) && floating.Contents() != multiset{}
      modifies `stales, floating`heaps
      ensures Valid() && Conserved(all.remotes, before, Tracked(), drop)
      ensures Popped(floating.ctx, old(floating.heaps), floating.heaps, x)
      ensures drop == drop0 + if Live(all.remotes, x) then [x] else []
      ensures drop == drop0 || (drop != [] && drop[..|drop| - 1] == drop0)
      ensures stales == old(stales) - (|old(Tracked())| - |Tracked()| - (|drop| - |drop0|))
      ensures |floating.Contents()| < old(|floating.Contents()|)
    {
      hide Conserved, Live, MultiCurrencyPriceHeap.Valid, MultiCurrencyPriceHeap.Contents, Popped;
      drop := drop0;
      ghost var tracked := Tracked();
      var live;
      live, x := PopLive(floating);
      assert Tracked() == tracked - multiset{x};
      if live {
        DropOne(all.remotes, before, tracked, drop, x);
        drop := drop + [x];
      } else {
        LoseStale(all.remotes, before, tracked, drop, x);
      }
    }

    method PushAll(txs: seq<Transaction>)
      requires Valid()
      modifies urgent`heaps
      ensures Valid() && Tracked() == old(Tracked()) + multiset(txs)
    {
      hide All, Placed, Heaped;
      for i := 0 to |txs|
        invariant Valid() && urgent.Contents() == old(urgent.Contents()) + multiset(txs[..i])
      {
        urgent.Push(txs[i]);
        assert txs[..i + 1] == txs[..i] + [txs[i]];
        assert multiset(txs[..i + 1]) == multiset(txs[..i]) + multiset{txs[i]};
      }
      assert txs[..|txs|] == txs;
    }

    /** Rebuilds both heaps from the `remotes` that the lookup has at the time: the cheapest fifth in the floating heap,
        the others in the urgent one. */
    method Reheap(remotes: Lookup.Known)
      requires urgent != floating && None in urgent.heaps && None in floating.heaps && Lookup.HashKeyed(remotes)
      modifies `stales, urgent`heaps, floating`heaps
      ensures Valid() && stales == 0
      ensures Tracked() == multiset(remotes.Values) && |floating.Contents()| == |remotes| / 5
      ensures old(Priceable(urgent.ctx, urgent.heaps, remotes)) ==>
                NoneDearer(urgent.ctx, urgent.heaps, floating.Contents(), urgent.Contents())
    {
      hide All, Priceable, NoneDearer, Comparable, Placed, Heaped, SameFees;
      ghost var priceable := Priceable(urgent.ctx, urgent.heaps, remotes);
      stales := 0;
      Collect(remotes, priceable);
      ValuesCount(remotes);
      var n := urgent.Len();
      var floatingCount := n * FLOATING_RATIO / (URGENT_RATIO + FLOATING_RATIO);
      floating.Clear();
      Split(floatingCount, priceable);
    }

    /** Fills the urgent heap with the remotes, in no particular order. */
    method Collect(remotes: Lookup.Known, ghost priceable: bool)
      requires None in urgent.heaps && Lookup.HashKeyed(remotes)
      requires priceable ==> Priceable(urgent.ctx, urgent.heaps, remotes)
      modifies urgent`heaps
      ensures urgent.Valid() && urgent.Contents() == multiset(remotes.Values)
      ensures priceable ==> Comparable(urgent.ctx, urgent.heaps)
    {
      var rest := remotes;
      assert Within(rest, remotes);
      hide *;
      urgent.Clear();
      if priceable { PriceableSame(urgent.ctx, old(urgent.heaps), urgent.heaps, remotes); }
      while rest != map[]
        invariant None in urgent.heaps && Placed(urgent.heaps)
        invariant Lookup.HashKeyed(rest) && urgent.Contents() + multiset(rest.Values) == multiset(remotes.Values)
        invariant Within(rest, remotes)
        invariant priceable ==> Priceable(urgent.ctx, urgent.heaps, remotes)
        decreases |rest|
      {
        var hash :| hash in rest;
        ValuesPick(rest, hash);
        WithinLess(rest, remotes, hash);
        ghost var heaps := urgent.heaps;
        urgent.Add(rest[hash]);
        if priceable { PriceableMore(urgent.ctx, heaps, urgent.heaps, urgent.minimums, remotes, rest[hash]); }
        rest := rest - {hash};
      }
      ghost var heaps := urgent.heaps;
      urgent.Init();
      ContentsAre(urgent);
      if priceable {
        PriceableSame(urgent.ctx, heaps, urgent.heaps, remotes);
        MakeComparable(urgent.ctx, urgent.heaps, remotes);
      }
    }

    /** Moves the `count` cheapest urgent transactions to the empty floating heap. */
    method Split(count: nat, ghost priceable: bool)
      requires Valid() && floating.Contents() == multiset{} && count <= |urgent.Contents()|
      requires priceable ==> Comparable(urgent.ctx, urgent.heaps)
      modifies urgent`heaps, floating`heaps
      ensures Valid() && Tracked() == old(urgent.Contents()) && |floating.Contents()| == count
      ensures priceable ==> NoneDearer(urgent.ctx, urgent.heaps, floating.Contents(), urgent.Contents())
    {
      hide All, Placed, Heaped, Comparable, NoneDearer, IsCheaper, SameFees;
      if priceable { NoneYet(urgent.ctx, urgent.heaps, urgent.Contents()); }
      for i := 0 to count
        invariant urgent.Valid() && None in floating.heaps && Placed(floating.heaps)
        invariant Tracked() == old(urgent.Contents()) && |floating.Contents()| == i
        invariant priceable ==>
                  Comparable(urgent.ctx, urgent.heaps)
                    && NoneDearer(urgent.ctx, urgent.heaps, floating.Contents(), urgent.Contents())
      {
        ghost var before, kept, moved := urgent.heaps, urgent.Contents(), floating.Contents();
        var tx := urgent.Pop();
        floating.Add(tx.value);
        TakenOut(kept, moved, urgent.Contents(), floating.Contents(), tx.value);
        if priceable { MoveCheapest(urgent.ctx, before, urgent.heaps, moved, tx.value); }
      }
      floating.Init();
    }

    /** Notes that `count` transactions left the pool, whose lookup then has `remotes`; too many stale entries rebuild
        the heaps. */
    method Removed(count: nat, remotes: Lookup.Known)
      requires Valid() && Lookup.HashKeyed(remotes)
      modifies `stales, urgent`heaps, floating`heaps
      ensures Valid()
      ensures var over := old(stales) + count > old(|Tracked()|) / 4 || old(stales) + count >= maxStales;
              if over then stales == 0 && Tracked() == multiset(remotes.Values)
              else stales == old(stales) + count && Tracked() == old(Tracked()) && Now() == old(Now())
    {
      hide MultiCurrencyPriceHeap.Contents, Placed, Heaped, Priceable, NoneDearer;
      stales := stales + count;
      var urgentSize := urgent.Len();
      var floatingSize := floating.Len();
      var overStalesRatio := stales > (urgentSize + floatingSize) / 4;
      var overMaxStales := stales >= maxStales;
      if overStalesRatio || overMaxStales {
        Reheap(remotes);
      }
    }

    /** New rates and base fees for the urgent heap; the floating heap keeps its own. */
    method SetBaseFee(ctx: Context, minimums: map<Option<Address>, nat>)
      requires Valid() && all.Valid()
      modifies `stales, urgent, floating`heaps
      ensures Valid() && stales == 0 && urgent.ctx == ctx
      ensures Tracked() == multiset(all.remotes.Values) && |floating.Contents()| == |all.remotes| / 5
      ensures (forall k | k in old(urgent.heaps) :: Known(ctx, k)) && RemotesPriced(ctx, all.remotes) ==>
                NoneDearer(urgent.ctx, urgent.heaps, floating.Contents(), urgent.Contents())
    {
      hide MultiCurrencyPriceHeap.Contents, Placed, Heaped, NoneDearer;
      urgent.UpdateFeesAndCurrencies(ctx, minimums);
      Reheap(all.remotes);
    }

    /** Drops stale entries off the top of one currency's heap. */
    method Prune(heap: MultiCurrencyPriceHeap, k: Option<Address>)
      requires Valid() && heap in {urgent, floating} && k in heap.heaps
      modifies `stales, heap`heaps
      ensures Valid() && k in heap.heaps
      ensures heap.heaps == old(heap.heaps)[k := PriceHeap(old(heap.heaps)[k].baseFee, heap.heaps[k].list)]
      ensures heap.heaps[k].list == [] || Live(all.remotes, heap.heaps[k].list[0])
      ensures Conserved(all.remotes, old(heap.Contents()), heap.Contents(), [])
      ensures stales == old(stales) - (|old(heap.Contents())| - |heap.Contents()|)
    {
      hide All, Placed, Heaped, Conserved;
      NothingDropped(all.remotes, heap.Contents());
      while |heap.heaps[k].list| > 0 && heap.heaps[k].list[0].hash !in all.remotes
        invariant Valid() && k in heap.heaps
        invariant heap.heaps == old(heap.heaps)[k := PriceHeap(old(heap.heaps)[k].baseFee, heap.heaps[k].list)]
        invariant Conserved(all.remotes, old(heap.Contents()), heap.Contents(), [])
        invariant stales == old(stales) - (|old(heap.Contents())| - |heap.Contents()|)
        decreases |heap.heaps[k].list|
      {
        ghost var before := heap.Contents();
        stales := stales - 1;
        var x := heap.PopFrom(k);
        LoseStale(all.remotes, old(heap.Contents()), before, [], x);
      }
    }

    /** Whether a transaction is dearer than the live root of one heap. */
    method WellPriced(heap: MultiCurrencyPriceHeap, tx: Transaction, k: Option<Address>,
                      ghost todo: set<Option<Address>>, ghost before: multiset<Transaction>)
      returns (well: bool)
      requires Valid() && heap in {urgent, floating} && k in todo && todo <= heap.heaps.Keys
      requires Conserved(all.remotes, before, heap.Contents(), [])
      requires BelowRoots(heap.ctx, heap.heaps, all.remotes, tx, todo)
      modifies `stales, heap`heaps
      ensures Valid() && Conserved(all.remotes, before, heap.Contents(), []) && old(heap.heaps).Keys <= heap.heaps.Keys
      ensures well ==>
                k in heap.heaps && heap.heaps[k].list != [] && Live(all.remotes, heap.heaps[k].list[0])
                  && Key(tx) in heap.heaps
                       && Key(heap.heaps[k].list[0]) == k && !IsCheaper(heap.ctx, heap.heaps, tx, heap.heaps[k].list[0])
      ensures !well ==> BelowRoots(heap.ctx, heap.heaps, all.remotes, tx, todo - {k})
    {
      hide All, Placed, Heaped, Conserved, IsCheaper, BelowRoots;
      Prune(heap, k);
      ConservedTwice(all.remotes, before, old(heap.Contents()), heap.Contents());
      PrunedRoots(heap.ctx, old(heap.heaps), heap.heaps, all.remotes, tx, todo, k);
      well := false;
      if |heap.heaps[k].list| > 0 {
        RootOf(heap.heaps, k);
        ghost var pruned := heap.heaps;
        heap.GetHeapFor(tx);
        WithRoots(heap.ctx, pruned, heap.minimums, all.remotes, tx, todo);
        well := !IsCheaper(heap.ctx, heap.heaps, tx, heap.heaps[k].list[0]);
        if !well { OneRootMore(heap.ctx, heap.heaps, all.remotes, tx, todo, k); }
      } else {
        NoRootThere(heap.ctx, heap.heaps, all.remotes, tx, todo, k);
      }
    }

    /** Whether a transaction costs no more than any live transaction of a heap; if not, `better` is a cheaper live
        one. */
    method UnderpricedFor(heap: MultiCurrencyPriceHeap, tx: Transaction)
      returns (under: bool, ghost better: Transaction)
      requires Valid() && heap in {urgent, floating}
      modifies `stales, heap`heaps
      ensures Valid() && Conserved(all.remotes, old(heap.Contents()), heap.Contents(), [])
      ensures !under ==> Key(tx) in heap.heaps && IsRoot(heap.heaps, better) && Live(all.remotes, better)
                         && !IsCheaper(heap.ctx, heap.heaps, tx, better)
      ensures under ==> BelowRoots(heap.ctx, heap.heaps, all.remotes, tx, {})
    {
      hide All, Placed, Heaped, Conserved, IsCheaper, BelowRoots;
      better := tx;
      NothingDropped(all.remotes, heap.Contents());
      NoneSeen(heap.ctx, heap.heaps, all.remotes, tx);
      var keys := heap.heaps.Keys;
      var wellpriced := WellPriced(heap, tx, None, keys, old(heap.Contents()));
      if wellpriced {
        better := heap.heaps[None].list[0];
        RootOf(heap.heaps, None);
        return false, better;
      }
      var rest := keys - {None};
      while rest != {}
        invariant Valid() && rest <= heap.heaps.Keys
        invariant Conserved(all.remotes, old(heap.Contents()), heap.Contents(), [])
        invariant BelowRoots(heap.ctx, heap.heaps, all.remotes, tx, rest)
        decreases |rest|
      {
        var k :| k in rest;
        wellpriced := WellPriced(heap, tx, k, rest, old(heap.Contents()));
        if wellpriced {
          better := heap.heaps[k].list[0];
          RootOf(heap.heaps, k);
          return false, better;
        }
        rest := rest - {k};
      }
      return true, better;
    }

    /** Whether a transaction costs no more than anything tracked, in both heaps. */
    method Underpriced(tx: Transaction) returns (under: bool, ghost better: Transaction)
      requires Valid()
      modifies `stales, urgent`heaps, floating`heaps
      ensures Valid() && Conserved(all.remotes, old(Tracked()), Tracked(), [])
      ensures under ==>
                Tracked() != multiset{} && CheaperThanAll(urgent.ctx, urgent.heaps, tx)
                  && CheaperThanAll(floating.ctx, floating.heaps, tx)
      ensures !under && Tracked() != multiset{} ==>
                && Live(all.remotes, better)
                && (DearerThan(urgent.ctx, urgent.heaps, tx, better)
                    || DearerThan(floating.ctx, floating.heaps, tx, better))
    {
      hide Placed, Heaped, Conserved, IsCheaper, BelowRoots, Live, CheaperThanAll, All, Comparable;
      var urgentUnder, betterUrgent := UnderpricedFor(urgent, tx);
      var floatingUnder, betterFloating := UnderpricedFor(floating, tx);
      better := if !urgentUnder then betterUrgent else betterFloating;
      ConservedSum(all.remotes, old(urgent.Contents()), urgent.Contents(), old(floating.Contents()),
                   floating.Contents());
      var urgentLen := urgent.Len();
      var floatingLen := floating.Len();
      under := (urgentUnder || urgentLen == 0) && (floatingUnder || floatingLen == 0)
        && (urgentLen != 0 || floatingLen != 0);
      if urgentUnder { BelowAll(urgent.ctx, urgent.heaps, all.remotes, tx); }
        else { HasRoot(urgent.heaps, betterUrgent); }
      if floatingUnder { BelowAll(floating.ctx, floating.heaps, all.remotes, tx); }
        else { HasRoot(floating.heaps, betterFloating); }
    }
  }

  lemma KeptNow(list: TxPricedList)
    requires list.Valid()
    ensures WellKept(list.Now())
  {
  }

  /** Nothing is tracked twice. */
  ghost predicate Distinct(tracked: multiset<Transaction>) {
    forall tx :: tracked[tx] <= 1
  }

  lemma DistinctMore(tracked: multiset<Transaction>, tx: Transaction)
    requires Distinct(tracked)
    ensures Distinct(tracked + multiset{tx}) <==> tx !in tracked
  {
    if tx in tracked { assert (tracked + multiset{tx})[tx] == 2; }
  }

  /** Where prices can be compared, `tx` costs no more than anything held. */
  ghost predicate CheaperThanAll(ctx: Context, m: Heaps, tx: Transaction) {
    Comparable(ctx, m) && tx.feeCurrency == Key(tx) ==> forall x | x in All(m) ::
        Key(tx) in m && Key(x) in m && IsCheaper(ctx, m, tx, x)
  }

  /** `tx` costs more than `x`, the cheapest of its currency. */
  ghost predicate DearerThan(ctx: Context, m: Heaps, tx: Transaction, x: Transaction) {
    Key(tx) in m && IsRoot(m, x) && !IsCheaper(ctx, m, tx, x)
  }

  lemma BelowAll(ctx: Context, m: Heaps, remotes: Lookup.Known, tx: Transaction)
    requires Placed(m) && Heaped(m) && BelowRoots(ctx, m, remotes, tx, {})
    ensures CheaperThanAll(ctx, m, tx)
  {
    if Comparable(ctx, m) && tx.feeCurrency == Key(tx) {
      hide All, IsCheaper, Heaped;
      forall x | x in All(m)
        ensures Key(tx) in m
      {
        AllMember(m, x);
        RootOf(m, Key(x));
      }
      if Key(tx) in m {
        CheaperThanRoots(ctx, m, tx);
      }
    }
  }

  lemma HasRoot(m: Heaps, r: Transaction)
    requires Placed(m) && IsRoot(m, r)
    ensures r in All(m)
  {
    assert r in m[Key(r)].list;
    AllMember(m, r);
  }

  lemma ConservedSum(remotes: Lookup.Known, a: multiset<Transaction>, a': multiset<Transaction>,
                     b: multiset<Transaction>, b': multiset<Transaction>)
    requires Conserved(remotes, a, a', []) && Conserved(remotes, b, b', [])
    ensures Conserved(remotes, a + b, a' + b', [])
  {
  }

  /** Every remote transaction is tracked, so eviction can find it. */
  ghost predicate Tracks(remotes: Lookup.Known, tracked: multiset<Transaction>) {
    forall h | h in remotes :: remotes[h] in tracked
  }

  function Hashes(txs: seq<Transaction>): set<Hash> {
    set i | 0 <= i < |txs| :: txs[i].hash
  }

  lemma StillTracks(remotes: Lookup.Known, before: multiset<Transaction>, after: multiset<Transaction>,
                    drop: seq<Transaction>)
    requires Lookup.HashKeyed(remotes) && Tracks(remotes, before) && Conserved(remotes, before, after, drop)
    ensures Tracks(remotes - Hashes(drop), after)
  {
    forall h | h in remotes - Hashes(drop)
      ensures remotes[h] in after
    {
      var tx := remotes[h];
      assert Live(remotes, tx) && before[tx] > 0;
      assert tx !in drop;
      assert multiset(drop)[tx] == 0;
    }
  }

  /** Makes room for a newcomer: what the priced list gives up leaves the pool, and every remaining remote stays
      tracked. */
  method Evict(list: TxPricedList, slots: int, isLocal: bool) returns (ok: bool, drop: seq<Transaction>)
    requires list.Valid() && list.all.Valid() && Tracks(list.all.remotes, list.Tracked())
    modifies list`stales, list.urgent`heaps, list.floating`heaps, list.all
    ensures list.Valid() && list.all.Valid() && Tracks(list.all.remotes, list.Tracked())
    ensures list.all.Everything() == old(list.all.Everything()) - Hashes(drop)
    ensures list.all.remotes == old(list.all.remotes) - Hashes(drop)
    ensures forall tx | tx in drop :: tx.hash in old(list.all.remotes)
    ensures ok ==> isLocal || SumSlots(drop) >= slots
    ensures !ok ==> !isLocal && drop == []
  {
    hide Conserved, Tracks, SumSlots, Lookup.HashKeyed, Hashes, TxPricedList.Valid, TxPricedList.Tracked, DiscardRun,
         DropsOf;
    ghost var considered, moments, popped;
    drop, ok, considered, moments, popped := list.Discard(slots, isLocal);
    KeyedRemotes(list.all);
    StillTracks(list.all.remotes, old(list.Tracked()), list.Tracked(), drop);
    AllConsidered(list.all.remotes, old(list.Tracked()), list.Tracked(), drop);
    NoHashes(list.all.Everything(), list.all.remotes);
    if isLocal || ok {
      RemoveAll(list.all, drop);
    }
  }

  method RemoveAll(all: Lookup.TxLookup, drop: seq<Transaction>)
    requires all.Valid()
    modifies all
    ensures all.Valid() && all.Everything() == old(all.Everything()) - Hashes(drop)
    ensures all.remotes == old(all.remotes) - Hashes(drop)
  {
    hide Hashes, Lookup.TxLookup.Valid, Lookup.TxLookup.Everything;
    NoHashes(all.Everything(), all.remotes);
    for i := 0 to |drop|
      invariant all.Valid() && all.Everything() == old(all.Everything()) - Hashes(drop[..i])
      invariant all.remotes == old(all.remotes) - Hashes(drop[..i])
    {
      OneHash(drop, i);
      all.Remove(drop[i].hash);
    }
    assert drop[..|drop|] == drop;
  }

  // ---------- Slots counted and slots freed ----------

  /** No transaction that takes slots occurs twice. */
  ghost predicate NoneTwice(drop: seq<Transaction>) {
    forall i, j | 0 <= i < j < |drop| && drop[i] == drop[j] :: drop[i].Slots() == 0
  }

  /** What leaves the lookup never frees more slots than were counted for it, and just as many exactly when nothing that
      takes slots was given up twice. */
  lemma {:induction false} SlotsFreed(e: Lookup.Known, drop: seq<Transaction>)
    requires forall i | 0 <= i < |drop| :: Lookup.InLookup(e, drop[i])
    ensures Lookup.SlotSum(e) <= Lookup.SlotSum(e - Hashes(drop)) + SumSlots(drop)
    ensures Lookup.SlotSum(e) == Lookup.SlotSum(e - Hashes(drop)) + SumSlots(drop) <==> NoneTwice(drop)
    decreases |drop|
  {
    hide Lookup.SlotSum, Hashes;
    if drop == [] {
      NoHashes(e, e);
    } else {
      var n := |drop| - 1;
      var rest := drop[..n];
      SlotsFreed(e, rest);
      OneHash(drop, n);
      assert drop[..n + 1] == drop;
      assert e - Hashes(rest) - {drop[n].hash} == e - Hashes(drop);
      OneMoreTwice(e, drop);
      if drop[n] !in rest { Lookup.SlotSumWithout(e - Hashes(rest), drop[n].hash); }
    }
  }

  lemma OneMoreTwice(e: Lookup.Known, drop: seq<Transaction>)
    requires drop != [] && forall i | 0 <= i < |drop| :: Lookup.InLookup(e, drop[i])
    ensures var rest, x := drop[..|drop| - 1], drop[|drop| - 1];
            && (x in rest <==> x.hash in Hashes(rest))
            && (x in rest ==> e - Hashes(rest) - {x.hash} == e - Hashes(rest))
            && (NoneTwice(drop) <==> NoneTwice(rest) && (x in rest ==> x.Slots() == 0))
  {
    var n := |drop| - 1;
    var rest, x := drop[..n], drop[n];
    if x in rest {
      var i :| 0 <= i < n && rest[i] == x;
      assert drop[i] == drop[n];
    }
    forall i, j | 0 <= i < j < |drop| && drop[i] == drop[j] && j < n
      ensures NoneTwice(rest) ==> drop[i].Slots() == 0
    {
      assert rest[i] == rest[j];
    }
    forall i, j | 0 <= i < j < n && rest[i] == rest[j]
      ensures NoneTwice(drop) ==> rest[i].Slots() == 0
    {
      assert drop[i] == drop[j];
    }
  }

  /** Every remote that is tracked and takes slots has one entry. */
  ghost predicate OneEach(remotes: Lookup.Known, tracked: multiset<Transaction>) {
    forall tx | tx in tracked && Live(remotes, tx) && tx.Slots() > 0 :: tracked[tx] == 1
  }

  /** Once everything has been given up, the slots freed are the slots counted exactly when no remote had more than one
      entry; one that had is given up as often. */
  lemma ForcedFrees(e: Lookup.Known, remotes: Lookup.Known, before: multiset<Transaction>, after: multiset<Transaction>,
                    drop: seq<Transaction>)
    requires Conserved(remotes, before, after, drop)
    requires forall tx | Live(remotes, tx) :: multiset(drop)[tx] == before[tx]
    requires forall tx | tx in before && Live(remotes, tx) :: Lookup.InLookup(e, tx)
    ensures OneEach(remotes, before) <==> Lookup.SlotSum(e) == Lookup.SlotSum(e - Hashes(drop)) + SumSlots(drop)
    ensures OneEach(remotes, before) || Lookup.SlotSum(e) < Lookup.SlotSum(e - Hashes(drop)) + SumSlots(drop)
  {
    hide Lookup.SlotSum, Hashes, SumSlots;
    forall i | 0 <= i < |drop|
      ensures Lookup.InLookup(e, drop[i])
    {
      assert drop[i] in multiset(drop);
    }
    SlotsFreed(e, drop);
    if OneEach(remotes, before) {
      DroppedAsTracked(remotes, before, after, drop);
    } else {
      var tx :| tx in before && Live(remotes, tx) && tx.Slots() > 0 && before[tx] != 1;
      var i, j := FoundTwice(drop, tx);
    }
  }

  lemma FoundTwice(txs: seq<Transaction>, tx: Transaction) returns (i: nat, j: nat)
    requires multiset(txs)[tx] >= 2
    ensures i < j < |txs| && txs[i] == txs[j] == tx
  {
    i :| 0 <= i < |txs| && txs[i] == tx;
    var rest := txs[..i] + txs[i + 1..];
    assert txs == txs[..i] + [tx] + txs[i + 1..];
    assert multiset(rest) == multiset(txs) - multiset{tx};
    assert tx in rest;
    j :| 0 <= j < |rest| && rest[j] == tx;
    if j < i {
      i, j := j, i;
    } else {
      j := j + 1;
    }
  }

  /** An unknown remote enters the pool and is tracked. */
  method Enter(list: TxPricedList, tx: Transaction)
    requires list.Valid() && list.all.Valid() && tx.hash !in list.all.Everything()
    modifies list.all, list.urgent`heaps
    ensures list.Valid() && list.all.Valid() && list.Tracked() == old(list.Tracked()) + multiset{tx}
    ensures list.all.remotes == old(list.all.remotes)[tx.hash := tx] && list.all.locals == old(list.all.locals)
    ensures list.all.slots == old(list.all.slots) + tx.Slots()
  {
    hide TxPricedList.Tracked, Distinct, Lookup.TxLookup.Valid;
    list.all.Add(tx, false);
    list.Put(tx, false);
  }

  /** Distinct hashes, all unknown to the pool. */
  ghost predicate Newcomers(e: Lookup.Known, txs: seq<Transaction>) {
    && (forall i | 0 <= i < |txs| :: txs[i].hash !in e)
    && (forall i, j | 0 <= i < j < |txs| :: txs[i].hash != txs[j].hash)
  }

  /** The first `i` of `txs` have entered the pool, whose entries were `before` and which had taken `slots` slots. */
  ghost predicate Entered(before: multiset<Transaction>, slots: int, txs: seq<Transaction>, i: nat,
                          tracked: multiset<Transaction>, slots': int, remotes: Lookup.Known)
    requires i <= |txs|
  {
    && tracked == before + multiset(txs[..i]) && slots' == slots + SumSlots(txs[..i])
    && Newcomers(remotes, txs[i..]) && forall j | 0 <= j < i :: Lookup.InLookup(remotes, txs[j])
  }

  lemma EnteredNone(txs: seq<Transaction>, tracked: multiset<Transaction>, slots: int, remotes: Lookup.Known)
    requires Newcomers(remotes, txs)
    ensures Entered(tracked, slots, txs, 0, tracked, slots, remotes)
  {
    assert txs[0..] == txs;
  }

  lemma EnteredMore(before: multiset<Transaction>, slots: int, txs: seq<Transaction>, i: nat,
                    tracked: multiset<Transaction>, slots': int, remotes: Lookup.Known)
    requires i < |txs| && Entered(before, slots, txs, i, tracked, slots', remotes)
    ensures txs[i].hash !in remotes
    ensures var x := txs[i];
            Entered(before, slots, txs, i + 1, tracked + multiset{x}, slots' + x.Slots(), remotes[x.hash := x])
  {
    assert txs[..i + 1] == txs[..i] + [txs[i]] && txs[..i + 1][..i] == txs[..i];
    assert txs[i..][0] == txs[i] && txs[i..][1..] == txs[i + 1..];
    NewcomersLeft(remotes, txs[i..]);
  }

  lemma NewcomersLeft(e: Lookup.Known, txs: seq<Transaction>)
    requires txs != [] && Newcomers(e, txs)
    ensures txs[0].hash !in e && Newcomers(e[txs[0].hash := txs[0]], txs[1..])
  {
  }

  method EnterAll(list: TxPricedList, txs: seq<Transaction>)
    requires list.Valid() && list.all.Valid() && list.all.locals == map[] && Newcomers(list.all.remotes, txs)
    modifies list.all, list.urgent`heaps
    ensures list.Valid() && list.all.Valid() && list.all.locals == map[]
    ensures Entered(old(list.Tracked()), old(list.all.slots), txs, |txs|, list.Tracked(), list.all.slots,
                    list.all.remotes)
  {
    hide TxPricedList.Valid, TxPricedList.Tracked, Lookup.TxLookup.Valid, Entered, Newcomers;
    EnteredNone(txs, list.Tracked(), list.all.slots, list.all.remotes);
    for i := 0 to |txs|
      invariant list.Valid() && list.all.Valid() && list.all.locals == map[]
      invariant Entered(old(list.Tracked()), old(list.all.slots), txs, i, list.Tracked(), list.all.slots,
                        list.all.remotes)
    {
      EnteredMore(old(list.Tracked()), old(list.all.slots), txs, i, list.Tracked(), list.all.slots, list.all.remotes);
      Enter(list, txs[i]);
    }
  }

  /** A remote leaves the pool, which the list is told; that need not be enough for a rebuild. */
  method Leave(list: TxPricedList, tx: Transaction)
    requires list.Valid() && list.all.Valid() && Lookup.InLookup(list.all.remotes, tx) && list.all.locals == map[]
    requires list.stales + 1 <= |list.Tracked()| / 4 && list.stales + 1 < list.maxStales
    modifies list.all, list`stales, list.urgent`heaps, list.floating`heaps
    ensures list.Valid() && list.all.Valid() && list.Tracked() == old(list.Tracked())
    ensures list.all.remotes == old(list.all.remotes) - {tx.hash} && list.all.locals == map[]
    ensures list.all.slots == old(list.all.slots) - tx.Slots()
  {
    hide TxPricedList.Valid, TxPricedList.Tracked, TxPricedList.Now, Lookup.SlotSum;
    list.all.Remove(tx.hash);
    list.Removed(1, list.all.remotes);
  }

  /** One of four remotes leaves the pool and comes back. */
  method ComeBack(ctx: Context, txs: seq<Transaction>) returns (list: TxPricedList)
    requires |txs| == 4 && Newcomers(map[], txs)
    ensures fresh(list) && fresh(list.urgent) && fresh(list.floating) && list.Valid()
    ensures list.Tracked() == multiset(txs) + multiset{txs[0]} && list.all.slots == SumSlots(txs)
    ensures forall i | 0 <= i < 4 :: Live(list.all.remotes, txs[i])
  {
    hide TxPricedList.Valid, TxPricedList.Tracked, Lookup.TxLookup.Valid, SumSlots, Newcomers;
    var all := new Lookup.TxLookup();
    list := new TxPricedList(all, ctx, map[], 100);
    EnterAll(list, txs);
    assert txs[..4] == txs && list.Tracked() == multiset(txs) && |multiset(txs)| == 4;
    Leave(list, txs[0]);
    Enter(list, txs[0]);
  }

  /** So it is tracked twice. Making room by force then gives it up twice, for five slots where the pool has four. */
  method TrackedTwice(ctx: Context, txs: seq<Transaction>) returns (list: TxPricedList, drop: seq<Transaction>)
    requires |txs| == 4 && Newcomers(map[], txs) && forall i | 0 <= i < 4 :: txs[i].Slots() == 1
    ensures multiset(drop) == multiset(txs) + multiset{txs[0]} && SumSlots(drop) == 5 && list.all.slots == 4
  {
    hide Conserved, DiscardRun, DropsOf, TxPricedList.Valid, TxPricedList.Tracked, Lookup.TxLookup.Valid, SumSlots;
    list := ComeBack(ctx, txs);
    SumOfOnes(txs);
    ghost var before := list.Tracked();
    var ok;
    ghost var considered, moments, popped;
    drop, ok, considered, moments, popped := list.Discard(6, true);
    AllOfOnes(list.all.remotes, before, list.Tracked(), drop, 6);
  }

  lemma AllOfOnes(remotes: Lookup.Known, before: multiset<Transaction>, after: multiset<Transaction>,
                  drop: seq<Transaction>, slots: nat)
    requires Conserved(remotes, before, after, drop) && |before| < slots
    requires forall tx | tx in before :: Live(remotes, tx) && tx.Slots() == 1
    requires SumSlots(drop) < slots ==> forall tx | Live(remotes, tx) :: multiset(drop)[tx] == before[tx]
    ensures multiset(drop) == before && SumSlots(drop) == |before|
  {
    forall i | 0 <= i < |drop|
      ensures drop[i].Slots() == 1
    {
      assert drop[i] in multiset(drop);
    }
    SumOfOnes(drop);
    assert before == multiset(drop) + (before - multiset(drop));
  }

  lemma {:induction false} SumOfOnes(txs: seq<Transaction>)
    requires forall i | 0 <= i < |txs| :: txs[i].Slots() == 1
    ensures SumSlots(txs) == |txs|
  {
    if txs != [] { SumOfOnes(txs[..|txs| - 1]); }
  }

  lemma KeyedRemotes(all: Lookup.TxLookup)
    requires all.Valid()
    ensures Lookup.HashKeyed(all.remotes)
  {
  }

  lemma NoHashes(e: Lookup.Known, r: Lookup.Known)
    ensures e == e - Hashes([]) && r == r - Hashes([])
  {
  }

  lemma OneHash(drop: seq<Transaction>, i: nat)
    requires i < |drop|
    ensures Hashes(drop[..i + 1]) == Hashes(drop[..i]) + {drop[i].hash}
  {
    forall h | h in Hashes(drop[..i + 1])
      ensures h in Hashes(drop[..i]) + {drop[i].hash}
    {
      var j :| 0 <= j < i + 1 && drop[..i + 1][j].hash == h;
      if j < i { assert drop[..i][j].hash == h; }
    }
    forall h | h in Hashes(drop[..i]) + {drop[i].hash}
      ensures h in Hashes(drop[..i + 1])
    {
      if h in Hashes(drop[..i]) {
        var j :| 0 <= j < i && drop[..i][j].hash == h;
        assert drop[..i + 1][j].hash == h;
      } else {
        assert drop[..i + 1][i].hash == h;
      }
    }
  }

  /** Every root outside the heaps `todo` is live and costs no less than `tx`. */
  ghost predicate BelowRoots(ctx: Context, m: Heaps, remotes: Lookup.Known, tx: Transaction,
                             todo: set<Option<Address>>) {
    forall r | IsRoot(m, r) && Key(r) !in todo :: Live(remotes, r) && Key(tx) in m && IsCheaper(ctx, m, tx, r)
  }

  lemma PrunedRoots(ctx: Context, m: Heaps, m': Heaps, remotes: Lookup.Known, tx: Transaction,
                    todo: set<Option<Address>>, k: Option<Address>)
    requires BelowRoots(ctx, m, remotes, tx, todo) && k in m && k in todo && k in m'
    requires m' == m[k := PriceHeap(m[k].baseFee, m'[k].list)]
    ensures BelowRoots(ctx, m', remotes, tx, todo)
  {
    forall r | IsRoot(m', r) && Key(r) !in todo
      ensures Live(remotes, r) && Key(tx) in m' && IsCheaper(ctx, m', tx, r)
    {
      assert IsRoot(m, r);
    }
  }

  lemma WithRoots(ctx: Context, m: Heaps, minimums: map<Option<Address>, nat>, remotes: Lookup.Known, tx: Transaction,
                  todo: set<Option<Address>>)
    requires BelowRoots(ctx, m, remotes, tx, todo)
    ensures BelowRoots(ctx, WithHeapFor(m, minimums, tx), remotes, tx, todo)
  {
    var m' := WithHeapFor(m, minimums, tx);
    forall r | IsRoot(m', r) && Key(r) !in todo
      ensures Live(remotes, r) && Key(tx) in m' && IsCheaper(ctx, m', tx, r)
    {
      assert IsRoot(m, r);
    }
  }

  lemma OneRootMore(ctx: Context, m: Heaps, remotes: Lookup.Known, tx: Transaction, todo: set<Option<Address>>,
                    k: Option<Address>)
    requires BelowRoots(ctx, m, remotes, tx, todo) && k in m && m[k].list != [] && Key(tx) in m
    requires Live(remotes, m[k].list[0]) && Key(m[k].list[0]) == k && IsCheaper(ctx, m, tx, m[k].list[0])
    ensures BelowRoots(ctx, m, remotes, tx, todo - {k})
  {
  }

  lemma NoRootThere(ctx: Context, m: Heaps, remotes: Lookup.Known, tx: Transaction, todo: set<Option<Address>>,
                    k: Option<Address>)
    requires BelowRoots(ctx, m, remotes, tx, todo) && k in m && m[k].list == []
    ensures BelowRoots(ctx, m, remotes, tx, todo - {k})
  {
  }

  lemma ConservedTwice(remotes: Lookup.Known, a: multiset<Transaction>, b: multiset<Transaction>,
                       c: multiset<Transaction>)
    requires Conserved(remotes, a, b, []) && Conserved(remotes, b, c, [])
    ensures Conserved(remotes, a, c, [])
  {
  }

  lemma NoneSeen(ctx: Context, m: Heaps, remotes: Lookup.Known, tx: Transaction)
    ensures BelowRoots(ctx, m, remotes, tx, m.Keys)
  {
  }

  lemma RootOf(m: Heaps, k: Option<Address>)
    requires Placed(m) && k in m && m[k].list != []
    ensures IsRoot(m, m[k].list[0]) && Key(m[k].list[0]) == k
  {
    assert m[k].list[0] in m[k].list;
  }

  ghost predicate RemotesPriced(ctx: Context, remotes: Lookup.Known) {
    forall h | h in remotes :: Known(ctx, remotes[h].feeCurrency) && Key(remotes[h]) == remotes[h].feeCurrency
  }

  /** Every heap has a base fee and a known rate, and every remote is priced in the currency it pays in. */
  ghost predicate Priceable(ctx: Context, m: Heaps, remotes: Lookup.Known) {
    (forall k | k in m :: m[k].baseFee.Some? && Known(ctx, k)) && RemotesPriced(ctx, remotes)
  }

  /** No transaction of `low` costs more than any of `high`. */
  ghost predicate NoneDearer(ctx: Context, m: Heaps, low: multiset<Transaction>, high: multiset<Transaction>) {
    forall x, y | x in low && y in high :: Key(x) in m && Key(y) in m && IsCheaper(ctx, m, x, y)
  }

  lemma NoneYet(ctx: Context, m: Heaps, high: multiset<Transaction>)
    ensures NoneDearer(ctx, m, multiset{}, high)
  {
  }

  lemma PriceableSame(ctx: Context, m: Heaps, m': Heaps, remotes: Lookup.Known)
    requires Priceable(ctx, m, remotes) && SameFees(m, m')
    ensures Priceable(ctx, m', remotes)
  {
  }

  lemma PriceableMore(ctx: Context, m: Heaps, m': Heaps, minimums: map<Option<Address>, nat>, remotes: Lookup.Known,
                      tx: Transaction)
    requires Priceable(ctx, m, remotes) && SameFees(WithHeapFor(m, minimums, tx), m') && tx.hash in remotes
    requires remotes[tx.hash] == tx
    ensures Priceable(ctx, m', remotes)
  {
  }

  lemma MakeComparable(ctx: Context, m: Heaps, remotes: Lookup.Known)
    requires Placed(m) && Priceable(ctx, m, remotes) && All(m) == multiset(remotes.Values)
    ensures Comparable(ctx, m)
  {
    forall k, tx | k in m && tx in m[k].list
      ensures tx.feeCurrency == k
    {
      AllMember(m, tx);
      assert tx in multiset(remotes.Values);
      var h :| h in remotes && remotes[h] == tx;
    }
  }

  lemma TakenOut(kept: multiset<Transaction>, moved: multiset<Transaction>, kept': multiset<Transaction>,
                 moved': multiset<Transaction>, x: Transaction)
    requires x in kept && kept' == kept - multiset{x} && moved' == moved + multiset{x}
    ensures kept' + moved' == kept + moved && |moved'| == |moved| + 1
  {
  }

  /** Popping the cheapest of the dearer side keeps the sides apart. */
  lemma MoveCheapest(ctx: Context, m: Heaps, m': Heaps, low: multiset<Transaction>, x: Transaction)
    requires Placed(m) && Placed(m') && Comparable(ctx, m) && SameFees(m, m') && x in All(m)
    requires All(m') == All(m) - multiset{x}
    requires NoneDearer(ctx, m, low, All(m))
    requires forall tx | tx in All(m) :: Key(tx) in m && Key(x) in m && IsCheaper(ctx, m, x, tx)
    ensures Comparable(ctx, m') && NoneDearer(ctx, m', low + multiset{x}, All(m'))
  {
    hide All, IsCheaper, Placed;
    StillComparable(ctx, m, m');
    forall p, q | p in low + multiset{x} && q in All(m')
      ensures Key(p) in m' && Key(q) in m' && IsCheaper(ctx, m', p, q)
    {
      assert q in All(m);
      assert p == x || p in low;
      CheaperSameFees(ctx, m, m', p, q);
    }
  }

  lemma CheaperSameFees(ctx: Context, m: Heaps, m': Heaps, a: Transaction, b: Transaction)
    requires SameFees(m, m') && Key(a) in m && Key(b) in m
    ensures Key(a) in m' && Key(b) in m' && (IsCheaper(ctx, m', a, b) <==> IsCheaper(ctx, m, a, b))
  {
  }

  lemma StillComparable(ctx: Context, m: Heaps, m': Heaps)
    requires Placed(m) && Placed(m') && Comparable(ctx, m) && SameFees(m, m') && All(m') <= All(m)
    ensures Comparable(ctx, m')
  {
    hide All;
    forall k, tx | k in m' && tx in m'[k].list
      ensures tx.feeCurrency == k
    {
      AllMember(m', tx);
      AllMember(m, tx);
      assert Key(tx) == k;
    }
  }

  ghost predicate Within(m: Lookup.Known, remotes: Lookup.Known) {
    forall h | h in m :: h in remotes && remotes[h] == m[h]
  }

  lemma WithinLess(m: Lookup.Known, remotes: Lookup.Known, h: Hash)
    requires Lookup.HashKeyed(m) && Within(m, remotes) && h in m
    ensures Within(m - {h}, remotes) && m[h].hash in remotes && remotes[m[h].hash] == m[h]
  {
  }

  lemma ContentsAre(heap: MultiCurrencyPriceHeap)
    requires heap.Valid()
    ensures heap.Contents() == All(heap.heaps) && Placed(heap.heaps)
  {
  }

  lemma ValuesPick(m: Lookup.Known, h: Hash)
    requires Lookup.HashKeyed(m) && h in m
    ensures Lookup.HashKeyed(m - {h}) && multiset(m.Values) == multiset((m - {h}).Values) + multiset{m[h]}
  {
    assert m[h] !in (m - {h}).Values;
    forall x | x in m.Values
      ensures x in (m - {h}).Values + {m[h]}
    {
      var k :| k in m && m[k] == x;
      assert k != h ==> k in m - {h} && (m - {h})[k] == x;
    }
    assert m.Values == (m - {h}).Values + {m[h]};
  }

  lemma {:induction false} ValuesCount(m: Lookup.Known)
    requires Lookup.HashKeyed(m)
    ensures |multiset(m.Values)| == |m|
    decreases |m|
  {
    if m == map[] {
      assert m.Values == {};
    } else {
      var h :| h in m;
      ValuesPick(m, h);
      ValuesCount(m - {h});
    }
  }

  /** With nothing tracked any more, every live transaction has been dropped. */
  lemma AllConsidered(remotes: Lookup.Known, before: multiset<Transaction>, after: multiset<Transaction>,
                      drop: seq<Transaction>)
    requires Conserved(remotes, before, after, drop)
    ensures after == multiset{} ==> forall tx | Live(remotes, tx) :: multiset(drop)[tx] == before[tx]
    ensures forall tx | tx in drop :: Live(remotes, tx)
  {
  }

  lemma PutBack(remotes: Lookup.Known, before: multiset<Transaction>, after: multiset<Transaction>,
                drop: seq<Transaction>)
    requires Conserved(remotes, before, after, drop)
    ensures Conserved(remotes, before, after + multiset(drop), []) && |after + multiset(drop)| == |after| + |drop|
  {
  }

  lemma NothingDropped(remotes: Lookup.Known, tracked: multiset<Transaction>)
    ensures Conserved(remotes, tracked, tracked, []) && SumSlots([]) == 0
  {
  }
}
