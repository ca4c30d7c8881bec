/** Price heaps: one per fee currency, and the heap over all currencies that pops the cheapest transaction. */
module PriceHeaps {
  import opened Options
  import opened Types
  import opened Currency
  import BinaryHeap

  function EffectiveTip(tx: Transaction, baseFee: Option<nat>): int {
    match baseFee
    case None => tx.gasTipCap
    case Some(fee) => if tx.gasTipCap <= tx.gasFeeCap - fee then tx.gasTipCap else tx.gasFeeCap - fee
  }

  /** The most that can go to the miner: what is within the tip cap, and with the base fee within the fee cap, is
      exactly what is no more than that. It is negative when the fee cap does not reach the base fee. */
  lemma EffectiveTipMeans(tx: Transaction, baseFee: nat, tip: int)
    ensures tip <= EffectiveTip(tx, Some(baseFee)) <==> tip <= tx.gasTipCap && baseFee + tip <= tx.gasFeeCap
    ensures EffectiveTip(tx, None) == tx.gasTipCap
  {
  }

  /** Comparison inside one currency. */
  function HeapCmp(baseFee: Option<nat>, a: Transaction, b: Transaction): int {
    var tips := if baseFee.Some? then Sign(EffectiveTip(a, baseFee), EffectiveTip(b, baseFee)) else 0;
    if tips != 0 then tips
    else if a.gasFeeCap != b.gasFeeCap then Sign(a.gasFeeCap, b.gasFeeCap)
    else Sign(a.gasTipCap, b.gasTipCap)
  }

  /** Cheaper first; of equal prices, the higher nonce first. */
  function HeapLess(baseFee: Option<nat>): (Transaction, Transaction) -> bool {
    (a, b) => HeapCmp(baseFee, a, b) < 0 || (HeapCmp(baseFee, a, b) == 0 && a.nonce > b.nonce)
  }

  /** What goes first: the lower effective tip where there is a base fee, then the lower fee cap, then the lower tip
      cap, then the higher nonce. */
  lemma HeapLessMeans(baseFee: Option<nat>, a: Transaction, b: Transaction)
    ensures HeapLess(baseFee)(a, b) <==>
            if baseFee.Some? && EffectiveTip(a, baseFee) != EffectiveTip(b, baseFee)
            then EffectiveTip(a, baseFee) < EffectiveTip(b, baseFee)
            else if a.gasFeeCap != b.gasFeeCap then a.gasFeeCap < b.gasFeeCap
            else if a.gasTipCap != b.gasTipCap then a.gasTipCap < b.gasTipCap
            else a.nonce > b.nonce
  {
  }

  lemma HeapOrder(baseFee: Option<nat>)
    ensures BinaryHeap.StrictWeakOrder(HeapLess(baseFee))
  {
  }

  /** Comparison across currencies, each base fee in its transaction's currency. */
  function CmpTx(ctx: Context, a: Transaction, baseA: Option<nat>, b: Transaction, baseB: Option<nat>): int {
    var tips := if baseA.Some? && baseB.Some?
                then CmpValues(ctx, EffectiveTip(a, baseA), a.feeCurrency, EffectiveTip(b, baseB),
                               b.feeCurrency) else 0;
    if tips != 0 then tips
    else
      var caps := CmpValues(ctx, a.gasFeeCap, a.feeCurrency, b.gasFeeCap, b.feeCurrency);
      if caps != 0 then caps else CmpValues(ctx, a.gasTipCap, a.feeCurrency, b.gasTipCap, b.feeCurrency)
  }

  /** What a transaction pays, in CELO: by effective tip, then fee cap, then tip cap. */
  datatype Price = Price(tip: real, feeCap: real, tipCap: real) {
    ghost predicate Below(p: Price) {
      tip < p.tip || (tip == p.tip && (feeCap < p.feeCap || (feeCap == p.feeCap && tipCap < p.tipCap)))
    }
  }

  ghost function PriceOf(ctx: Context, tx: Transaction, baseFee: Option<nat>): Price
    requires Known(ctx, tx.feeCurrency)
  {
    Price(if baseFee.Some? then Worth(ctx, EffectiveTip(tx, baseFee), tx.feeCurrency) else 0.0,
          Worth(ctx, tx.gasFeeCap, tx.feeCurrency), Worth(ctx, tx.gasTipCap, tx.feeCurrency))
  }

  /** With rates known and base fees all set or all unset, the comparison is the order of prices, a total preorder. */
  lemma CmpIsPriceOrder(ctx: Context, a: Transaction, baseA: Option<nat>, b: Transaction, baseB: Option<nat>)
    requires Known(ctx, a.feeCurrency) && Known(ctx, b.feeCurrency) && baseA.Some? == baseB.Some?
    ensures CmpTx(ctx, a, baseA, b, baseB) < 0 <==> PriceOf(ctx, a, baseA).Below(PriceOf(ctx, b, baseB))
    ensures CmpTx(ctx, a, baseA, b, baseB) > 0 <==> PriceOf(ctx, b, baseB).Below(PriceOf(ctx, a, baseA))
  {
    hide Worth, CmpValues;
    CmpIsWorthOrder(ctx, EffectiveTip(a, baseA), a.feeCurrency, EffectiveTip(b, baseB), b.feeCurrency);
    CmpIsWorthOrder(ctx, a.gasFeeCap, a.feeCurrency, b.gasFeeCap, b.feeCurrency);
    CmpIsWorthOrder(ctx, a.gasTipCap, a.feeCurrency, b.gasTipCap, b.feeCurrency);
  }

  /** Inside one currency the two comparisons agree. */
  lemma CmpInsideCurrency(ctx: Context, a: Transaction, b: Transaction, baseFee: Option<nat>)
    requires a.feeCurrency == b.feeCurrency
    ensures CmpTx(ctx, a, baseFee, b, baseFee) == HeapCmp(baseFee, a, b)
  {
  }

  lemma CmpTransitive(ctx: Context, a: Transaction, fa: Option<nat>, b: Transaction, fb: Option<nat>, c: Transaction,
                      fc: Option<nat>)
    requires Known(ctx, a.feeCurrency) && Known(ctx, b.feeCurrency) && Known(ctx, c.feeCurrency)
    requires fa.Some? == fb.Some? == fc.Some?
    requires CmpTx(ctx, a, fa, b, fb) <= 0 && CmpTx(ctx, b, fb, c, fc) <= 0
    ensures CmpTx(ctx, a, fa, c, fc) <= 0
  {
    hide CmpTx, PriceOf;
    CmpIsPriceOrder(ctx, a, fa, b, fb);
    CmpIsPriceOrder(ctx, b, fb, c, fc);
    CmpIsPriceOrder(ctx, a, fa, c, fc);
  }

  lemma CmpReverse(ctx: Context, a: Transaction, fa: Option<nat>, b: Transaction, fb: Option<nat>)
    requires Known(ctx, a.feeCurrency) && Known(ctx, b.feeCurrency) && fa.Some? == fb.Some?
    requires CmpTx(ctx, a, fa, b, fb) > 0
    ensures CmpTx(ctx, b, fb, a, fa) <= 0
  {
    hide CmpTx, PriceOf;
    CmpIsPriceOrder(ctx, a, fa, b, fb);
    CmpIsPriceOrder(ctx, b, fb, a, fa);
  }

  /** A base fee set for one currency and unset for another makes the comparison cyclic, whatever the rates: no
      transaction of the three is a cheapest one. */
  lemma MixedBaseFeesCycle(ctx: Context, priced: Option<Address>, bare: Option<Address>, fee: nat, blank: Transaction)
    returns (a: Transaction, b: Transaction, n: Transaction)
    requires Known(ctx, priced) && Known(ctx, bare) && priced != bare
    ensures a.feeCurrency == b.feeCurrency == priced && n.feeCurrency == bare && !a.denominated && !b.denominated
    ensures !n.denominated
    ensures CmpTx(ctx, a, Some(fee), b, Some(fee)) < 0
    ensures CmpTx(ctx, b, Some(fee), n, None) < 0
    ensures CmpTx(ctx, n, None, a, Some(fee)) < 0
  {
    var r, q := RateOf(ctx, priced), RateOf(ctx, bare);
    var x, y := r.denominator * q.numerator, q.denominator * r.numerator;
    a := blank.(feeCurrency := priced, denominated := false, gasTipCap := 0, gasFeeCap := (fee + 2) * y + 1);
    b := blank.(feeCurrency := priced, denominated := false, gasTipCap := 1, gasFeeCap := fee + 1);
    n := blank.(feeCurrency := bare, denominated := false, gasTipCap := 0, gasFeeCap := (fee + 2) * x);
    Scaled(fee, x, y);
    CmpScaled(ctx, b, n, x, y);
    CmpScaled(ctx, a, n, x, y);
  }

  lemma Scaled(fee: nat, x: nat, y: nat)
    requires x > 0 && y > 0
    ensures (fee + 1) * x < (fee + 2) * x * y < ((fee + 2) * y + 1) * x
    ensures (fee + 2) * y + 1 >= fee
  {
    var k := fee + 2;
    var p, q := k * x, k * y;
    OneMoreTime(fee + 1, x);
    OneMoreTime(q, x);
    assert q * x == p * y;
    AtLeast(p, y);
    AtLeast(k, y);
  }

  lemma OneMoreTime(a: nat, x: nat)
    ensures (a + 1) * x == a * x + x
  {
  }

  lemma AtLeast(a: nat, y: nat)
    requires y > 0
    ensures a <= a * y
  {
  }

  lemma CmpScaled(ctx: Context, a: Transaction, b: Transaction, x: nat, y: nat)
    requires Known(ctx, a.feeCurrency) && Known(ctx, b.feeCurrency) && a.feeCurrency != b.feeCurrency
    requires x == RateOf(ctx, a.feeCurrency).denominator * RateOf(ctx, b.feeCurrency).numerator
    requires y == RateOf(ctx, b.feeCurrency).denominator * RateOf(ctx, a.feeCurrency).numerator
    ensures CmpValues(ctx, a.gasFeeCap, a.feeCurrency, b.gasFeeCap, b.feeCurrency)
            == Sign(a.gasFeeCap * x, b.gasFeeCap * y)
    ensures CmpValues(ctx, b.gasFeeCap, b.feeCurrency, a.gasFeeCap, a.feeCurrency)
            == Sign(b.gasFeeCap * y, a.gasFeeCap * x)
  {
  }

  // ---- The heap over all currencies ----

  datatype PriceHeap = PriceHeap(baseFee: Option<nat>, list: seq<Transaction>)

  /** One heap per currency; key None is the native heap. */
  type Heaps = map<Option<Address>, PriceHeap>

  /** The heap a transaction goes to: the native one for CELO and for CELO-denominated transactions. */
  function Key(tx: Transaction): Option<Address> {
    tx.DenominatedFeeCurrency()
  }

  /** All transactions held, with multiplicity. */
  ghost function All(m: Heaps): multiset<Transaction> {
    if m == map[] then multiset{}
    else
      var k :| k in m;
      multiset(m[k].list) + All(m - {k})
  }

  lemma AllUnfolds(m: Heaps) returns (j: Option<Address>)
    requires m != map[]
    ensures j in m && All(m) == multiset(m[j].list) + All(m - {j})
  {
    j :| j in m && All(m) == multiset(m[j].list) + All(m - {j});
  }

  lemma {:induction false} AllPick(m: Heaps, k: Option<Address>)
    requires k in m
    ensures All(m) == multiset(m[k].list) + All(m - {k})
    decreases |m|
  {
    hide All;
    var j := AllUnfolds(m);
    if j != k {
      AllPick(m - {j}, k);
      AllPick(m - {k}, j);
      assert m - {j} - {k} == m - {k} - {j};
    }
  }

  lemma AllRest(m: Heaps, k: Option<Address>, h: PriceHeap)
    requires k in m
    ensures All(m) == multiset(m[k].list) + All(m - {k})
    ensures All(m[k := h]) == multiset(h.list) + All(m - {k})
  {
    AllPick(m, k);
    AllPick(m[k := h], k);
    assert m[k := h] - {k} == m - {k};
  }

  lemma AllPlus(m: Heaps, k: Option<Address>, h: PriceHeap, tx: Transaction)
    requires Placed(m) && k in m && Key(tx) == k && multiset(h.list) == multiset(m[k].list) + multiset{tx}
    ensures All(m[k := h]) == All(m) + multiset{tx} && Placed(m[k := h])
  {
    hide All;
    AllRest(m, k, h);
    forall x | x in h.list
      ensures Key(x) == k
    {
      assert x in multiset(h.list);
    }
  }

  lemma AllMinus(m: Heaps, k: Option<Address>, h: PriceHeap, tx: Transaction)
    requires Placed(m) && k in m && tx in m[k].list && multiset(h.list) == multiset(m[k].list) - multiset{tx}
    ensures All(m[k := h]) == All(m) - multiset{tx} && tx in All(m) && Placed(m[k := h])
  {
    hide All;
    AllRest(m, k, h);
    assert tx in multiset(m[k].list);
    PlacedLess(m, k, h);
  }

  lemma AllSame(m: Heaps, k: Option<Address>, h: PriceHeap)
    requires Placed(m) && k in m && multiset(h.list) == multiset(m[k].list)
    ensures All(m[k := h]) == All(m) && Placed(m[k := h])
  {
    hide All;
    AllRest(m, k, h);
    PlacedLess(m, k, h);
  }

  lemma AllNew(m: Heaps, k: Option<Address>, h: PriceHeap)
    requires k !in m
    ensures All(m[k := h]) == All(m) + multiset(h.list)
  {
    AllPick(m[k := h], k);
    assert m[k := h] - {k} == m;
  }

  lemma {:induction false} AllMember(m: Heaps, tx: Transaction)
    requires Placed(m)
    ensures tx in All(m) <==> Key(tx) in m && tx in m[Key(tx)].list
    decreases |m|
  {
    if m != map[] {
      var k :| k in m && All(m) == multiset(m[k].list) + All(m - {k});
      AllMember(m - {k}, tx);
    }
  }

  lemma {:induction false} AllEmpty(m: Heaps)
    ensures All(m) == multiset{} <==> forall k | k in m :: m[k].list == []
    decreases |m|
  {
    if m != map[] {
      var k :| k in m && All(m) == multiset(m[k].list) + All(m - {k});
      AllEmpty(m - {k});
      if m[k].list == [] && (forall j | j in m - {k} :: (m - {k})[j].list == []) {
        assert forall j | j in m && j != k :: j in m - {k};
      }
      if m[k].list != [] {
        assert m[k].list[0] in multiset(m[k].list);
        assert m[k].list[0] in All(m);
      }
    }
  }

  /** Each transaction is in the heap of its currency. */
  ghost predicate Placed(m: Heaps) {
    forall k, tx | k in m && tx in m[k].list :: Key(tx) == k
  }

  ghost predicate Heaped(m: Heaps) {
    forall k | k in m :: BinaryHeap.IsHeap(m[k].list, HeapLess(m[k].baseFee))
  }

  lemma HeapedAt(m: Heaps, k: Option<Address>)
    requires Heaped(m) && k in m
    ensures BinaryHeap.IsHeap(m[k].list, HeapLess(m[k].baseFee))
  {
  }

  lemma HeapedUpdate(m: Heaps, k: Option<Address>, h: PriceHeap)
    requires Heaped(m) && BinaryHeap.IsHeap(h.list, HeapLess(h.baseFee))
    ensures Heaped(m[k := h])
  {
  }

  ghost predicate SameFees(m: Heaps, m': Heaps) {
    m.Keys == m'.Keys && forall k | k in m :: m'[k].baseFee == m[k].baseFee
  }

  /** Prices can be compared: rates are known, base fees are all set or all unset, and no transaction is denominated
      in another currency than it is paid in. */
  ghost predicate Comparable(ctx: Context, m: Heaps) {
    && (forall k | k in m :: Known(ctx, k))
    && (forall j, k | j in m && k in m :: m[j].baseFee.Some? == m[k].baseFee.Some?)
    && (forall k, tx | k in m && tx in m[k].list :: tx.feeCurrency == k)
  }

  /** `tx1` costs no more than `tx2`. */
  predicate IsCheaper(ctx: Context, m: Heaps, tx1: Transaction, tx2: Transaction)
    requires Key(tx1) in m && Key(tx2) in m
  {
    CmpTx(ctx, tx1, m[Key(tx1)].baseFee, tx2, m[Key(tx2)].baseFee) <= 0
  }

  /** Costing no more is paying no more in CELO: by effective tip where there are base fees, then by fee cap, then by
      tip cap. */
  lemma CheaperMeans(ctx: Context, m: Heaps, a: Transaction, b: Transaction)
    requires Key(a) in m && Key(b) in m && Known(ctx, a.feeCurrency) && Known(ctx, b.feeCurrency)
    requires m[Key(a)].baseFee.Some? == m[Key(b)].baseFee.Some?
    ensures var c, d := a.feeCurrency, b.feeCurrency;
            var tip, tip' := if m[Key(a)].baseFee.Some? then Worth(ctx, EffectiveTip(a, m[Key(a)].baseFee), c) else 0.0,
                             if m[Key(b)].baseFee.Some? then Worth(ctx, EffectiveTip(b, m[Key(b)].baseFee), d) else 0.0;
            IsCheaper(ctx, m, a, b) <==>
            if tip != tip' then tip < tip'
            else if Worth(ctx, a.gasFeeCap, c) != Worth(ctx, b.gasFeeCap, d)
            then Worth(ctx, a.gasFeeCap, c) < Worth(ctx, b.gasFeeCap, d)
            else Worth(ctx, a.gasTipCap, c) <= Worth(ctx, b.gasTipCap, d)
  {
    hide CmpTx, Worth, EffectiveTip;
    CmpIsPriceOrder(ctx, a, m[Key(a)].baseFee, b, m[Key(b)].baseFee);
  }

  ghost predicate IsRoot(m: Heaps, tx: Transaction) {
    Key(tx) in m && m[Key(tx)].list != [] && m[Key(tx)].list[0] == tx
  }

  /** Nothing in the heap of `x` goes before it. */
  ghost predicate LeastOfItsKind(m: Heaps, x: Transaction) {
    Key(x) in m && forall y | y in m[Key(x)].list :: !HeapLess(m[Key(x)].baseFee)(y, x)
  }

  lemma RootIsLeast(m: Heaps, x: Transaction)
    requires Heaped(m) && IsRoot(m, x)
    ensures LeastOfItsKind(m, x)
  {
    var h := m[Key(x)];
    HeapOrder(h.baseFee);
    BinaryHeap.RootIsLeastOfAll(h.list, HeapLess(h.baseFee));
  }

  /** What costs no more than any root costs no more than anything. */
  lemma CheaperThanRoots(ctx: Context, m: Heaps, tx: Transaction)
    requires Placed(m) && Heaped(m) && Comparable(ctx, m) && Key(tx) in m && tx.feeCurrency == Key(tx)
    requires forall r | IsRoot(m, r) :: IsCheaper(ctx, m, tx, r)
    ensures forall x | x in All(m) :: Key(x) in m && IsCheaper(ctx, m, tx, x)
  {
    forall x | x in All(m)
      ensures Key(x) in m && IsCheaper(ctx, m, tx, x)
    {
      hide IsCheaper;
      AllMember(m, x);
      var root := m[Key(x)].list[0];
      assert root in m[Key(x)].list && Key(root) == Key(x) && IsRoot(m, root);
      RootBelow(ctx, m, x);
      CheaperThrough(ctx, m, tx, root, x);
    }
  }

  lemma RootIsPriced(ctx: Context, m: Heaps, root: Transaction)
    requires Comparable(ctx, m) && IsRoot(m, root)
    ensures root.feeCurrency == Key(root)
  {
    assert root in m[Key(root)].list;
  }

  lemma RootBelow(ctx: Context, m: Heaps, x: Transaction)
    requires Placed(m) && Heaped(m) && Comparable(ctx, m) && Key(x) in m && x in m[Key(x)].list
    ensures var root := m[Key(x)].list[0]; Key(root) == Key(x) && IsCheaper(ctx, m, root, x)
  {
    var h := m[Key(x)];
    var least := h.list[0];
    assert least in h.list;
    HeapOrder(h.baseFee);
    BinaryHeap.RootIsLeastOfAll(h.list, HeapLess(h.baseFee));
    assert !HeapLess(h.baseFee)(x, least);
    CmpInsideCurrency(ctx, x, least, h.baseFee);
    CmpInsideCurrency(ctx, least, x, h.baseFee);
  }

  lemma CheaperThrough(ctx: Context, m: Heaps, a: Transaction, b: Transaction, c: Transaction)
    requires Comparable(ctx, m) && Key(a) in m && a.feeCurrency == Key(a)
    requires Key(b) in m && b in m[Key(b)].list && Key(c) in m && c in m[Key(c)].list
    requires IsCheaper(ctx, m, a, b) && IsCheaper(ctx, m, b, c)
    ensures IsCheaper(ctx, m, a, c)
  {
    CmpTransitive(ctx, a, m[Key(a)].baseFee, b, m[Key(b)].baseFee, c, m[Key(c)].baseFee);
  }

  /** Where base fees are set, nothing held leaves a miner less above them than `x`, in CELO. */
  ghost predicate NoneTipsLess(ctx: Context, m: Heaps, x: Transaction) {
    forall k, y | k in m && y in m[k].list && Key(x) in m && m[k].baseFee.Some? && m[Key(x)].baseFee.Some? ::
      && Known(ctx, k) && Known(ctx, Key(x))
      && Worth(ctx, EffectiveTip(x, m[Key(x)].baseFee), Key(x)) <= Worth(ctx, EffectiveTip(y, m[k].baseFee), k)
  }

  lemma CheapestTipsLeast(ctx: Context, m: Heaps, x: Transaction)
    requires Placed(m) && Comparable(ctx, m) && IsRoot(m, x)
    requires forall y | y in All(m) :: Key(y) in m && IsCheaper(ctx, m, x, y)
    ensures NoneTipsLess(ctx, m, x)
  {
    hide All, Worth, EffectiveTip, IsCheaper;
    assert x in m[Key(x)].list;
    forall k, y | k in m && y in m[k].list && m[k].baseFee.Some? && m[Key(x)].baseFee.Some?
      ensures Worth(ctx, EffectiveTip(x, m[Key(x)].baseFee), Key(x)) <= Worth(ctx, EffectiveTip(y, m[k].baseFee), k)
    {
      AllHas(m, k, y);
      CheaperMeans(ctx, m, x, y);
    }
  }

  lemma AllHas(m: Heaps, k: Option<Address>, y: Transaction)
    requires Placed(m) && k in m && y in m[k].list
    ensures y in All(m)
  {
    AllPick(m, k);
    assert y in multiset(m[k].list);
  }

  class MultiCurrencyPriceHeap {
    var ctx: Context
    var minimums: map<Option<Address>, nat>
    var heaps: Heaps

    ghost predicate Valid()
      reads this
    {
      None in heaps && Placed(heaps) && Heaped(heaps)
    }

    ghost function Contents(): multiset<Transaction>
      reads this
    {
      All(heaps)
    }

    constructor (ctx: Context, minimums: map<Option<Address>, nat>)
      ensures Valid() && Contents() == multiset{} && this.ctx == ctx && this.minimums == minimums
      ensures heaps == map[None := PriceHeap(None, [])]
    {
      this.ctx, this.minimums := ctx, minimums;
      heaps := map[None := PriceHeap(None, [])];
      new;
      AllEmpty(heaps);
    }

    /** Makes sure a transaction has a heap to go to; a new one gets the current gas price minimum as its base fee. */
    method GetHeapFor(tx: Transaction)
      requires None in heaps && Placed(heaps)
      modifies `heaps
      ensures heaps == WithHeapFor(old(heaps), minimums, tx)
      ensures var k := if tx.denominated then None else tx.feeCurrency;
              && k in heaps && heaps.Keys == old(heaps).Keys + {k}
              && (k !in old(heaps) ==>
                    heaps[k] == PriceHeap(Some(if k in minimums then minimums[k] else 0), []))
              && forall j | j in old(heaps) :: heaps[j] == old(heaps)[j]
      ensures None in heaps && Key(tx) in heaps && Placed(heaps)
      ensures Contents() == old(Contents()) && (old(Heaped(heaps)) ==> Heaped(heaps))
    {
      if Key(tx) !in heaps {
        AllNew(heaps, Key(tx), PriceHeap(Some(MinimumFor(minimums, Key(tx))), []));
        heaps := heaps[Key(tx) := PriceHeap(Some(MinimumFor(minimums, Key(tx))), [])];
      }
    }

    /** Adds without ordering; Init must follow. */
    method Add(tx: Transaction)
      requires None in heaps && Placed(heaps)
      modifies `heaps
      ensures None in heaps && Placed(heaps) && Contents() == old(Contents()) + multiset{tx}
      ensures SameFees(WithHeapFor(old(heaps), minimums, tx), heaps)
    {
      hide All, Placed, Heaped, BinaryHeap.IsHeap, BinaryHeap.StrictWeakOrder;
      GetHeapFor(tx);
      var h := heaps[Key(tx)];
      AllPlus(heaps, Key(tx), h.(list := h.list + [tx]), tx);
      heaps := heaps[Key(tx) := h.(list := h.list + [tx])];
    }

    method Push(tx: Transaction)
      requires Valid()
      modifies `heaps
      ensures Valid() && Contents() == old(Contents()) + multiset{tx}
      ensures SameFees(WithHeapFor(old(heaps), minimums, tx), heaps)
    {
      hide All, Placed, Heaped, BinaryHeap.IsHeap, BinaryHeap.StrictWeakOrder;
      GetHeapFor(tx);
      var h := heaps[Key(tx)];
      HeapOrder(h.baseFee);
      HeapedAt(heaps, Key(tx));
      var list := BinaryHeap.Push(h.list, HeapLess(h.baseFee), tx);
      HeapedUpdate(heaps, Key(tx), h.(list := list));
      AllPlus(heaps, Key(tx), h.(list := list), tx);
      heaps := heaps[Key(tx) := h.(list := list)];
    }

    /** The roots of all non-empty heaps, the native one first, the others in no particular order. */
    method CheapestTxs() returns (txs: seq<Transaction>)
      requires Valid()
      ensures forall tx :: tx in txs <==> IsRoot(heaps, tx)
    {
      txs := [];
      if |heaps[None].list| > 0 {
        txs := [heaps[None].list[0]];
      }
      var rest := heaps.Keys - {None};
      while rest != {}
        invariant rest <= heaps.Keys - {None}
        invariant forall tx :: tx in txs <==> IsRoot(heaps, tx) && Key(tx) !in rest
        decreases |rest|
      {
        var k :| k in rest;
        if |heaps[k].list| > 0 {
          assert heaps[k].list[0] in heaps[k].list;
          txs := txs + [heaps[k].list[0]];
        }
        rest := rest - {k};
      }
    }

    method CheapestTx() returns (r: Option<Transaction>)
      requires Valid()
      ensures r.None? <==> Contents() == multiset{}
      ensures r.Some? ==> IsRoot(heaps, r.value)
      ensures r.Some? && Comparable(ctx, heaps) ==>
                forall tx | tx in Contents() :: Key(tx) in heaps && IsCheaper(ctx, heaps, r.value, tx)
    {
      hide Placed, Heaped, Comparable, IsCheaper;
      var txs := CheapestTxs();
      r := None;
      for i := 0 to |txs|
        invariant r.None? <==> i == 0
        invariant r.Some? ==> r.value in txs
        invariant r.Some? && Comparable(ctx, heaps) ==> CheapestOf(ctx, heaps, txs[..i], r.value)
      {
        assert txs[i] in txs;
        if r.None? || IsCheaper(ctx, heaps, txs[i], r.value) {
          if Comparable(ctx, heaps) { TakeNext(ctx, heaps, txs, i, r); }
          r := Some(txs[i]);
        } else {
          if Comparable(ctx, heaps) { KeepOld(ctx, heaps, txs, i, r.value); }
        }
      }
      assert txs[..|txs|] == txs;
      NoRoots(heaps, txs);
      if r.Some? && Comparable(ctx, heaps) {
        assert forall tx | IsRoot(heaps, tx) :: tx in txs;
        RootIsPriced(ctx, heaps, r.value);
        CheaperThanRoots(ctx, heaps, r.value);
      }
    }

    /** Removes a cheapest transaction over all currencies. */
    method Pop() returns (r: Option<Transaction>)
      requires Valid()
      modifies `heaps
      ensures Valid() && SameFees(old(heaps), heaps)
      ensures r.None? <==> old(Contents()) == multiset{}
      ensures r.None? ==> heaps == old(heaps)
      ensures r.Some? ==> r.value in old(Contents()) && Contents() == old(Contents()) - multiset{r.value}
      ensures r.Some? ==> Key(r.value) in heaps && IsRoot(old(heaps), r.value)
      ensures r.Some? && Comparable(ctx, old(heaps)) ==>
                forall tx | tx in old(Contents()) :: Key(tx) in old(heaps) && IsCheaper(ctx, old(heaps), r.value, tx)
      ensures r.Some? && Comparable(ctx, old(heaps)) ==> NoneTipsLess(ctx, old(heaps), r.value)
    {
      hide IsCheaper, Comparable, All, Placed, Heaped, NoneTipsLess;
      r := CheapestTx();
      if r.Some? {
        if Comparable(ctx, heaps) { CheapestTipsLeast(ctx, heaps, r.value); }
        var x := PopFrom(Key(r.value));
      }
    }

    /** Removes the root of one currency's heap. */
    method PopFrom(k: Option<Address>) returns (x: Transaction)
      requires Valid() && k in heaps && heaps[k].list != []
      modifies `heaps
      ensures Valid() && x == old(heaps)[k].list[0] && k in heaps && |heaps[k].list| == |old(heaps)[k].list| - 1
      ensures heaps == old(heaps)[k := PriceHeap(old(heaps)[k].baseFee, heaps[k].list)]
      ensures x in old(Contents()) && Contents() == old(Contents()) - multiset{x}
    {
      hide All, Placed, Heaped, BinaryHeap.IsHeap, BinaryHeap.StrictWeakOrder, HeapLess;
      var h := heaps[k];
      HeapOrder(h.baseFee);
      HeapedAt(heaps, k);
      var list;
      list, x := BinaryHeap.Pop(h.list, HeapLess(h.baseFee));
      HeapedUpdate(heaps, k, h.(list := list));
      AllMinus(heaps, k, h.(list := list), x);
      heaps := heaps[k := h.(list := list)];
    }

    method Len() returns (n: nat)
      ensures n == |Contents()|
    {
      n := 0;
      var rest := heaps;
      while rest != map[]
        invariant n + |All(rest)| == |All(heaps)|
        decreases |rest|
      {
        var k :| k in rest;
        AllPick(rest, k);
        n := n + |rest[k].list|;
        rest := rest - {k};
      }
    }

    /** Restores heap order in every heap. */
    method Init()
      requires None in heaps && Placed(heaps)
      modifies `heaps
      ensures Valid() && Contents() == old(Contents()) && SameFees(old(heaps), heaps)
    {
      var rest := heaps.Keys;
      while rest != {}
        invariant rest <= heaps.Keys && None in heaps && Placed(heaps) && All(heaps) == All(old(heaps))
        invariant SameFees(old(heaps), heaps)
        invariant forall k | k in heaps && k !in rest :: BinaryHeap.IsHeap(heaps[k].list, HeapLess(heaps[k].baseFee))
        decreases |rest|
      {
        var k :| k in rest;
        var h := heaps[k];
        HeapOrder(h.baseFee);
        var list := BinaryHeap.Init(h.list, HeapLess(h.baseFee));
        AllSame(heaps, k, h.(list := list));
        heaps := heaps[k := h.(list := list)];
        rest := rest - {k};
      }
    }

    method Clear()
      requires None in heaps
      modifies `heaps
      ensures Valid() && Contents() == multiset{} && SameFees(old(heaps), heaps)
    {
      heaps := map k | k in heaps :: heaps[k].(list := []);
      AllEmpty(heaps);
    }

    /** New rates and minimums; the heaps must be rebuilt afterwards. */
    method UpdateFeesAndCurrencies(ctx: Context, minimums: map<Option<Address>, nat>)
      requires None in heaps && Placed(heaps)
      modifies this
      ensures this.ctx == ctx && this.minimums == minimums && None in heaps && Placed(heaps)
      ensures heaps.Keys == old(heaps).Keys
      ensures forall k | k in heaps :: heaps[k] == PriceHeap(Some(MinimumFor(minimums, k)), old(heaps)[k].list)
      ensures forall k | k in heaps :: heaps[k].baseFee == Some(if k in minimums then minimums[k] else 0)
    {
      this.ctx, this.minimums := ctx, minimums;
      heaps := map k | k in heaps :: heaps[k].(baseFee := Some(MinimumFor(minimums, k)));
    }
  }

  const FALLBACK_GAS_PRICE_MINIMUM: nat := 0

  function MinimumFor(minimums: map<Option<Address>, nat>, k: Option<Address>): nat {
    if k in minimums then minimums[k] else FALLBACK_GAS_PRICE_MINIMUM
  }

  function WithHeapFor(m: Heaps, minimums: map<Option<Address>, nat>, tx: Transaction): Heaps {
    if Key(tx) in m then m else m[Key(tx) := PriceHeap(Some(MinimumFor(minimums, Key(tx))), [])]
  }

  lemma PlacedLess(m: Heaps, k: Option<Address>, h: PriceHeap)
    requires Placed(m) && k in m && multiset(h.list) <= multiset(m[k].list)
    ensures Placed(m[k := h])
  {
    forall x | x in h.list
      ensures Key(x) == k
    {
      assert x in multiset(h.list);
      assert x in multiset(m[k].list);
    }
  }

  /** `least` is among `txs` and costs no more than any of them. */
  ghost predicate CheapestOf(ctx: Context, m: Heaps, txs: seq<Transaction>, least: Transaction) {
    Key(least) in m && forall tx | tx in txs :: Key(tx) in m && IsCheaper(ctx, m, least, tx)
  }

  lemma TakeNext(ctx: Context, m: Heaps, txs: seq<Transaction>, i: nat, r: Option<Transaction>)
    requires Placed(m) && Comparable(ctx, m) && i < |txs| && forall tx | tx in txs :: IsRoot(m, tx)
    requires r.None? <==> i == 0
    requires r.Some? ==>
              r.value in txs && CheapestOf(ctx, m, txs[..i], r.value) && Key(txs[i]) in m
                && IsCheaper(ctx, m, txs[i], r.value)
    ensures CheapestOf(ctx, m, txs[..i + 1], txs[i])
  {
    assert txs[i] in txs;
    CheaperSelf(ctx, m, txs[i]);
    forall tx | tx in txs[..i + 1]
      ensures Key(tx) in m && IsCheaper(ctx, m, txs[i], tx)
    {
      if tx in txs[..i] {
        assert tx in txs;
        CheaperTransitive(ctx, m, txs[i], r.value, tx);
      }
    }
  }

  lemma KeepOld(ctx: Context, m: Heaps, txs: seq<Transaction>, i: nat, least: Transaction)
    requires Placed(m) && Comparable(ctx, m) && i < |txs| && forall tx | tx in txs :: IsRoot(m, tx)
    requires least in txs && CheapestOf(ctx, m, txs[..i], least) && Key(txs[i]) in m
    requires !IsCheaper(ctx, m, txs[i], least)
    ensures CheapestOf(ctx, m, txs[..i + 1], least)
  {
    assert txs[i] in txs;
    assert least in m[Key(least)].list && txs[i] in m[Key(txs[i])].list;
    CmpReverse(ctx, txs[i], m[Key(txs[i])].baseFee, least, m[Key(least)].baseFee);
  }

  lemma CheaperSelf(ctx: Context, m: Heaps, a: Transaction)
    requires Key(a) in m
    ensures IsCheaper(ctx, m, a, a)
  {
  }

  lemma CheaperTransitive(ctx: Context, m: Heaps, a: Transaction, b: Transaction, c: Transaction)
    requires Comparable(ctx, m) && IsRoot(m, a) && IsRoot(m, b) && IsRoot(m, c)
    requires IsCheaper(ctx, m, a, b) && IsCheaper(ctx, m, b, c)
    ensures IsCheaper(ctx, m, a, c)
  {
    assert a in m[Key(a)].list && b in m[Key(b)].list && c in m[Key(c)].list;
    CmpTransitive(ctx, a, m[Key(a)].baseFee, b, m[Key(b)].baseFee, c, m[Key(c)].baseFee);
  }

  lemma NoRoots(m: Heaps, txs: seq<Transaction>)
    requires Placed(m) && forall tx :: tx in txs <==> IsRoot(m, tx)
    ensures txs == [] <==> All(m) == multiset{}
  {
    AllEmpty(m);
    forall k | k in m && m[k].list != []
      ensures txs != []
    {
      assert m[k].list[0] in m[k].list;
      assert IsRoot(m, m[k].list[0]);
    }
    if txs != [] {
      assert txs[0] in txs;
      assert IsRoot(m, txs[0]);
    }
  }
}
