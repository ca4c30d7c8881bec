/** txList: the transactions of one account, with cost and gas caps that let Filter bail out early, and a strict
    mode that keeps nonces consecutive. This module treats the list as a value. */
module TxLists {
  import opened Options
  import opened Types
  import opened NonceMap
  import opened Currency

  datatype List = List(strict: bool, items: Items, nativecostcap: nat, feecaps: map<Address, nat>, gascap: nat)

  /** The account's means: CELO balance, balance per fee currency, and the block gas limit. */
  datatype Limits = Limits(native: nat, fees: map<Address, nat>, gas: nat)

  function EmptyList(strict: bool): List {
    List(strict, map[], 0, map[], 0)
  }

  // ---------- Add ----------

  function Bumped(price: nat, bump: nat): nat {
    (100 + bump) * price / 100
  }

  /** `tx` is priced well enough above `old` to take its place. */
  predicate Replaces(ctx: Context, old_: Transaction, tx: Transaction, bump: nat) {
    if old_.DenominatedFeeCurrency() == tx.DenominatedFeeCurrency() then
      && old_.gasFeeCap < tx.gasFeeCap && old_.gasTipCap < tx.gasTipCap
      && Bumped(old_.gasFeeCap, bump) <= tx.gasFeeCap && Bumped(old_.gasTipCap, bump) <= tx.gasTipCap
    else
      && Known(ctx, old_.DenominatedFeeCurrency()) && Known(ctx, tx.DenominatedFeeCurrency())
      && Bumped(ToCELO(ctx, old_.gasFeeCap, old_.DenominatedFeeCurrency()).value, bump)
         <= ToCELO(ctx, tx.gasFeeCap, tx.DenominatedFeeCurrency()).value
      && Bumped(ToCELO(ctx, old_.gasTipCap, old_.DenominatedFeeCurrency()).value, bump)
         <= ToCELO(ctx, tx.gasTipCap, tx.DenominatedFeeCurrency()).value
  }

  predicate Accepts(ctx: Context, m: Items, tx: Transaction, bump: nat) {
    tx.nonce in m ==> Replaces(ctx, m[tx.nonce], tx, bump)
  }

  /** Inside one currency a replacement is strictly dearer in fee cap and tip cap, and by `bump` per cent. */
  lemma ReplacesIff(ctx: Context, old_: Transaction, tx: Transaction, bump: nat)
    requires old_.DenominatedFeeCurrency() == tx.DenominatedFeeCurrency()
    ensures Replaces(ctx, old_, tx, bump) <==>
              && tx.gasFeeCap > old_.gasFeeCap && 100 * tx.gasFeeCap + 100 > (100 + bump) * old_.gasFeeCap
              && tx.gasTipCap > old_.gasTipCap && 100 * tx.gasTipCap + 100 > (100 + bump) * old_.gasTipCap
    ensures Replaces(ctx, old_, tx, bump) ==> !Replaces(ctx, tx, old_, bump)
  {
    FloorAtMost((100 + bump) * old_.gasFeeCap, 100, tx.gasFeeCap);
    FloorAtMost((100 + bump) * old_.gasTipCap, 100, tx.gasTipCap);
  }

  /** `new_` is worth `bump` per cent more than `old_`, up to `slack` CELO in each. */
  ghost predicate WorthMore(old_: real, new_: real, bump: nat, slack: real) {
    100.0 * (new_ + slack) >= (100 + bump) as real * (old_ - slack)
  }

  /** Across currencies it is worth `bump` per cent more, up to rounding each amount to whole CELO; and whatever is by a
      whole CELO is accepted. Without both rates nothing is. */
  lemma ReplacesByWorth(ctx: Context, old_: Transaction, tx: Transaction, bump: nat)
    requires old_.DenominatedFeeCurrency() != tx.DenominatedFeeCurrency()
    ensures var c, c' := old_.DenominatedFeeCurrency(), tx.DenominatedFeeCurrency();
            if !Known(ctx, c) || !Known(ctx, c') then !Replaces(ctx, old_, tx, bump)
            else
              var cap, cap' := Worth(ctx, old_.gasFeeCap, c), Worth(ctx, tx.gasFeeCap, c');
              var tip, tip' := Worth(ctx, old_.gasTipCap, c), Worth(ctx, tx.gasTipCap, c');
              && (Replaces(ctx, old_, tx, bump) ==> WorthMore(cap, cap', bump, 1.0) && WorthMore(tip, tip', bump, 1.0))
              && (WorthMore(cap, cap' - 1.0, bump, 0.0) && WorthMore(tip, tip' - 1.0, bump, 0.0) ==>
                    Replaces(ctx, old_, tx, bump))
  {
    hide Worth, ToCELO, WorthMore;
    var c, c' := old_.DenominatedFeeCurrency(), tx.DenominatedFeeCurrency();
    if Known(ctx, c) && Known(ctx, c') {
      BumpByWorth(ctx, old_.gasFeeCap, c, tx.gasFeeCap, c', bump);
      BumpByWorth(ctx, old_.gasTipCap, c, tx.gasTipCap, c', bump);
    }
  }

  lemma BumpByWorth(ctx: Context, old_: nat, c: Option<Address>, new_: nat, c': Option<Address>, bump: nat)
    requires Known(ctx, c) && Known(ctx, c')
    ensures ToCELO(ctx, old_, c).Some? && ToCELO(ctx, new_, c').Some?
    ensures var enough := Bumped(ToCELO(ctx, old_, c).value, bump) <= ToCELO(ctx, new_, c').value;
            && (enough ==> WorthMore(Worth(ctx, old_, c), Worth(ctx, new_, c'), bump, 1.0))
            && (WorthMore(Worth(ctx, old_, c), Worth(ctx, new_, c') - 1.0, bump, 0.0) ==> enough)
  {
    hide Worth, ToCELO;
    ToCELOIsWorth(ctx, old_, c);
    ToCELOIsWorth(ctx, new_, c');
    BumpRounded(ToCELO(ctx, old_, c).value, Worth(ctx, old_, c), ToCELO(ctx, new_, c').value, Worth(ctx, new_, c'),
                bump);
  }

  lemma BumpRounded(o: nat, w: real, n: nat, w': real, bump: nat)
    requires o as real <= w < o as real + 1.0 && n as real <= w' < n as real + 1.0
    ensures Bumped(o, bump) <= n ==> WorthMore(w, w', bump, 1.0)
    ensures WorthMore(w, w' - 1.0, bump, 0.0) ==> Bumped(o, bump) <= n
  {
    var k := 100 + bump;
    FloorAtMost(k * o, 100, n);
    RealMul(k, o);
    if k * o < (n + 1) * 100 {
      var low := w - 1.0;
      ScaleAtMost(low, o as real, k as real);
      assert k as real * low <= (k * o) as real;
      assert (k * o) as real <= ((n + 1) * 100) as real;
    }
    if WorthMore(w, w' - 1.0, bump, 0.0) {
      ScaleAtMost(o as real, w, k as real);
    }
  }

  lemma ScaleAtMost(a: real, b: real, k: real)
    requires a <= b && k >= 0.0
    ensures k * a <= k * b
  {
  }

  /** The rate the list needs to account for `tx` is known. */
  predicate Rated(ctx: Context, tx: Transaction) {
    tx.denominated && tx.feeCurrency.Some? ==> tx.feeCurrency.value in ctx.rates
  }

  /** What `tx` costs in its own fee currency. */
  function FeeInCurrency(ctx: Context, tx: Transaction): nat
    requires Rated(ctx, tx) && tx.feeCurrency.Some?
  {
    if tx.denominated then FromBase(ctx.rates[tx.feeCurrency.value], tx.Fee()) else tx.Fee()
  }

  function Max(a: nat, b: nat): nat {
    if a < b then b else a
  }

  /** The list after storing a rated `tx`: caps can only grow. */
  function Stored(ctx: Context, l: List, tx: Transaction): List
    requires Rated(ctx, tx)
  {
    var items := l.items[tx.nonce := tx];
    match tx.feeCurrency
    case None => l.(items := items, nativecostcap := Max(l.nativecostcap, tx.Cost()), gascap := Max(l.gascap, tx.gas))
    case Some(c) =>
      var fee := FeeInCurrency(ctx, tx);
      l.(items := items,
         feecaps := l.feecaps[c := if c in l.feecaps then Max(l.feecaps[c], fee) else fee],
         nativecostcap := Max(l.nativecostcap, tx.value), gascap := Max(l.gascap, tx.gas))
  }

  lemma StoredItems(ctx: Context, l: List, tx: Transaction)
    requires Rated(ctx, tx)
    ensures Stored(ctx, l, tx).items == l.items[tx.nonce := tx] && Stored(ctx, l, tx).strict == l.strict
  {
  }

  datatype AddOutcome = AddOutcome(list: List, inserted: bool, replaced: Option<Transaction>)

  /** Add: an unrated transaction is stored but reported as rejected, and leaves the caps alone. */
  function Add(ctx: Context, l: List, tx: Transaction, bump: nat): AddOutcome {
    if !Accepts(ctx, l.items, tx, bump) then AddOutcome(l, false, None)
    else if !Rated(ctx, tx) then AddOutcome(l.(items := l.items[tx.nonce := tx]), false, None)
    else AddOutcome(Stored(ctx, l, tx), true, if tx.nonce in l.items then Some(l.items[tx.nonce]) else None)
  }

  /** A transaction with a rate is added exactly when its nonce is free or it replaces what is there. Caps grow to what
      it needs, and no further. */
  lemma AddIff(ctx: Context, l: List, tx: Transaction, bump: nat)
    ensures var o := Add(ctx, l, tx, bump);
            && (o.inserted <==> Rated(ctx, tx) && (tx.nonce in l.items ==> Replaces(ctx, l.items[tx.nonce], tx, bump)))
            && (o.inserted ==>
                  && o.list.items == l.items[tx.nonce := tx] && o.list.strict == l.strict
                  && o.replaced == (if tx.nonce in l.items then Some(l.items[tx.nonce]) else None)
                  && (o.list.gascap == l.gascap || l.gascap < o.list.gascap == tx.gas)
                  && (o.list.nativecostcap == l.nativecostcap
                      || l.nativecostcap < o.list.nativecostcap == if tx.feeCurrency.None? then tx.Cost() else tx.value)
                  && (forall c | c in o.list.feecaps && tx.feeCurrency != Some(c) ::
                        c in l.feecaps && o.list.feecaps[c] == l.feecaps[c]))
    ensures var o := Add(ctx, l, tx, bump);
            o.inserted && tx.feeCurrency.Some? ==>
              var c, fee := tx.feeCurrency.value, tx.gasPrice * tx.gas + tx.gatewayFee;
              var inCurrency := if tx.denominated then FromBase(ctx.rates[c], fee) else fee;
              && c in o.list.feecaps && o.list.feecaps[c] >= inCurrency
              && (o.list.feecaps[c] == inCurrency || (c in l.feecaps && o.list.feecaps[c] == l.feecaps[c]))
  {
    hide Replaces, FromBase;
  }

  /** A rejected transaction stays out of the list exactly when it is its price that is rejected: being rejected
      for want of a rate stores it. */
  lemma RejectedStaysOut(ctx: Context, l: List, tx: Transaction, bump: nat)
    requires !Add(ctx, l, tx, bump).inserted
    ensures Add(ctx, l, tx, bump).list == l <==> !Accepts(ctx, l.items, tx, bump)
  {
    if Accepts(ctx, l.items, tx, bump) {
      assert l.items[tx.nonce := tx][tx.nonce] == tx;
    }
  }

  // ---------- Filter ----------

  predicate BelowFloor(ctx: Context, tx: Transaction) {
    CmpValues(ctx, ctx.priceFloor, None, tx.gasPrice, tx.DenominatedFeeCurrency()) > 0
  }

  /** What the full scan of Filter removes. */
  predicate TooCostly(ctx: Context, lim: Limits, tx: Transaction) {
    match tx.feeCurrency
    case None => tx.Cost() > lim.native || tx.gas > lim.gas || ctx.priceFloor > tx.gasPrice
    case Some(c) =>
      || !Rated(ctx, tx)
      || (tx.denominated && FeeInCurrency(ctx, tx) > tx.maxFeeInFeeCurrency)
      || c !in lim.fees
      || FeeInCurrency(ctx, tx) >= lim.fees[c]
      || tx.value > lim.native
      || BelowFloor(ctx, tx)
      || tx.gas > lim.gas
  }

  predicate CanBail(l: List, lim: Limits) {
    && l.nativecostcap <= lim.native
    && l.gascap <= lim.gas
    && forall c | c in lim.fees && c in l.feecaps :: l.feecaps[c] <= lim.fees[c]
  }

  function Min2(a: nat, b: nat): nat {
    if b < a then b else a
  }

  function Lowered(l: List, lim: Limits): List {
    l.(nativecostcap := Min2(l.nativecostcap, lim.native),
       gascap := Min2(l.gascap, lim.gas),
       feecaps := map c | c in l.feecaps :: if c in lim.fees then Min2(l.feecaps[c], lim.fees[c]) else l.feecaps[c])
  }

  /** `list` is what stays, `removed` what was selected, `invalids` what strict mode takes along. */
  datatype FilterOutcome = FilterOutcome(list: List, removed: Items, invalids: Items)

  /** Removing `removed` from a strict list invalidates everything above its lowest nonce. */
  function Cut(l: List, removed: Items): FilterOutcome {
    var rest := l.items - removed.Keys;
    if !l.strict || removed == map[] then FilterOutcome(l.(items := rest), removed, map[])
    else
      var lowest := Min(removed.Keys);
      FilterOutcome(l.(items := Below(rest, lowest)), removed, From(rest, lowest))
  }

  function Filter(ctx: Context, l: List, lim: Limits): FilterOutcome {
    if CanBail(l, lim) then FilterOutcome(l, map[], map[])
    else Cut(Lowered(l, lim), Matching(l.items, tx => TooCostly(ctx, lim, tx)))
  }

  function FilterOnGasLimit(l: List, limit: nat): FilterOutcome {
    if l.gascap <= limit then FilterOutcome(l, map[], map[])
    else Cut(l.(gascap := limit), Matching(l.items, (tx: Transaction) => tx.gas > limit))
  }

  /** Remove: takes out one nonce; a strict list loses what lies above it too. */
  function Remove(l: List, nonce: nat): FilterOutcome {
    if nonce !in l.items then FilterOutcome(l, map[], map[])
    else Cut(l, map[nonce := l.items[nonce]])
  }

  // ---------- The caps bound every stored transaction ----------

  ghost predicate WithinCaps(l: List, tx: Transaction) {
    && tx.gas <= l.gascap
    && (tx.feeCurrency.None? ==> tx.Cost() <= l.nativecostcap)
    && (tx.feeCurrency.Some? ==> tx.value <= l.nativecostcap && tx.feeCurrency.value in l.feecaps)
    && (tx.feeCurrency.Some? && !tx.denominated ==> tx.Fee() <= l.feecaps[tx.feeCurrency.value])
  }

  /** The list invariant: keyed by nonce, and no stored transaction is above a cap. */
  ghost predicate ListOk(l: List) {
    Keyed(l.items) && forall n | n in l.items :: WithinCaps(l, l.items[n])
  }

  lemma SubsetKeepsOk(l: List, m: Items)
    requires ListOk(l) && forall n | n in m :: n in l.items && m[n] == l.items[n]
    ensures ListOk(l.(items := m))
  {
    forall n | n in m
      ensures WithinCaps(l.(items := m), m[n])
    {
      assert WithinCaps(l, l.items[n]);
    }
  }

  /** Adding keeps the caps above every stored transaction, except that an unrated one is stored without raising
      them: then it depends on whether it happens to lie within. */
  lemma AddKeepsOk(ctx: Context, l: List, tx: Transaction, bump: nat)
    requires ListOk(l)
    ensures ListOk(Add(ctx, l, tx, bump).list)
            <==> Rated(ctx, tx) || !Accepts(ctx, l.items, tx, bump) || WithinCaps(l, tx)
  {
    var l' := Add(ctx, l, tx, bump).list;
    if !Accepts(ctx, l.items, tx, bump) {
      assert l' == l;
    } else {
      assert l'.items == l.items[tx.nonce := tx];
      assert WithinCaps(l', l'.items[tx.nonce]) <==> Rated(ctx, tx) || WithinCaps(l, tx);
      forall n | n in l'.items && n != tx.nonce
        ensures WithinCaps(l', l'.items[n])
      {
        assert WithinCaps(l, l.items[n]);
      }
    }
  }

  /** Lowering the caps to the limits is sound because everything above a limit goes in the same call. */
  lemma FilterKeepsOk(ctx: Context, l: List, lim: Limits)
    requires ListOk(l)
    ensures ListOk(Filter(ctx, l, lim).list)
  {
    if !CanBail(l, lim) {
      var low := Lowered(l, lim);
      var f := (tx: Transaction) => TooCostly(ctx, lim, tx);
      var kept := low.(items := l.items - Matching(l.items, f).Keys);
      forall n | n in kept.items
        ensures WithinCaps(kept, kept.items[n])
      {
        assert WithinCaps(l, l.items[n]);
        assert !f(l.items[n]);
      }
      SubsetKeepsOk(kept, Filter(ctx, l, lim).list.items);
    }
  }

  lemma FilterOnGasLimitKeepsOk(l: List, limit: nat)
    requires ListOk(l)
    ensures ListOk(FilterOnGasLimit(l, limit).list)
  {
    if l.gascap > limit {
      var f := (tx: Transaction) => tx.gas > limit;
      var kept := l.(gascap := limit, items := l.items - Matching(l.items, f).Keys);
      forall n | n in kept.items
        ensures WithinCaps(kept, kept.items[n])
      {
        assert WithinCaps(l, l.items[n]);
        assert !f(l.items[n]);
      }
      SubsetKeepsOk(kept, FilterOnGasLimit(l, limit).list.items);
    }
  }

  lemma RemoveKeepsOk(l: List, nonce: nat)
    requires ListOk(l)
    ensures ListOk(Remove(l, nonce).list)
  {
    SubsetKeepsOk(l, Remove(l, nonce).list.items);
  }

  /** Bailing out early leaves nothing beyond the account's means, as far as these are given. */
  lemma BailLeavesAffordable(l: List, lim: Limits, tx: Transaction)
    requires ListOk(l) && CanBail(l, lim)
    requires tx.nonce in l.items && l.items[tx.nonce] == tx
    ensures tx.gas <= lim.gas
    ensures tx.feeCurrency.None? ==> tx.Cost() <= lim.native
    ensures tx.feeCurrency.Some? ==> tx.value <= lim.native
    ensures tx.feeCurrency.Some? && !tx.denominated && tx.feeCurrency.value in lim.fees ==>
              tx.Fee() <= lim.fees[tx.feeCurrency.value]
  {
    assert WithinCaps(l, l.items[tx.nonce]);
  }

  /** What the full scan would remove but an early exit overlooks: a price that fell below the floor, a fee that equals
      the balance (the scan asks for strictly more than the fee, the caps only for enough), and a CELO-denominated fee
      whose rate is gone or has moved it past its maximum or the balance. A currency without a balance counts as
      overlooked too, but the pool gives the balance of every currency its list has seen, so it meets none. */
  predicate Overlooked(ctx: Context, lim: Limits, tx: Transaction) {
    || BelowFloor(ctx, tx)
    || (tx.feeCurrency.Some? && tx.feeCurrency.value !in lim.fees)
    || (tx.feeCurrency.Some? && !tx.denominated && tx.feeCurrency.value in lim.fees
        && tx.Fee() == lim.fees[tx.feeCurrency.value])
    || (tx.feeCurrency.Some? && tx.denominated && DenominatedMisfit(ctx, lim, tx))
  }

  /** At the current rate a CELO-denominated transaction cannot be converted, or converts to too much. */
  predicate DenominatedMisfit(ctx: Context, lim: Limits, tx: Transaction)
    requires tx.denominated && tx.feeCurrency.Some?
  {
    || !Rated(ctx, tx)
    || FeeInCurrency(ctx, tx) > tx.maxFeeInFeeCurrency
    || (tx.feeCurrency.value in lim.fees && FeeInCurrency(ctx, tx) >= lim.fees[tx.feeCurrency.value])
  }

  /** In a list that bails, the full scan would select exactly the overlooked. */
  lemma OverlookedIsTooCostly(ctx: Context, l: List, lim: Limits, tx: Transaction)
    requires ListOk(l) && CanBail(l, lim) && tx.nonce in l.items && l.items[tx.nonce] == tx
    ensures TooCostly(ctx, lim, tx) <==> Overlooked(ctx, lim, tx)
  {
    BailLeavesAffordable(l, lim, tx);
  }

  /** Filter removes exactly what the full scan selects if and only if it does not bail, or nothing stored is of the
      overlooked kind. */
  lemma FilterIsExactIff(ctx: Context, l: List, lim: Limits)
    requires ListOk(l)
    ensures Filter(ctx, l, lim).removed == Matching(l.items, tx => TooCostly(ctx, lim, tx))
            <==> !CanBail(l, lim) || forall n | n in l.items :: !Overlooked(ctx, lim, l.items[n])
  {
    var f := (tx: Transaction) => TooCostly(ctx, lim, tx);
    if CanBail(l, lim) {
      forall n | n in l.items
        ensures f(l.items[n]) <==> Overlooked(ctx, lim, l.items[n])
      {
        OverlookedIsTooCostly(ctx, l, lim, l.items[n]);
      }
      if forall n | n in l.items :: !Overlooked(ctx, lim, l.items[n]) {
        assert Matching(l.items, f) == map[];
      } else {
        var n :| n in l.items && Overlooked(ctx, lim, l.items[n]);
        assert n in Matching(l.items, f);
      }
    }
  }

  /** A list, strict or not, where the early exit overlooks a transaction: the fee takes the whole token balance. */
  lemma FilterOverlooksExactFee(strict: bool) returns (ctx: Context, l: List, lim: Limits)
    ensures ListOk(l) && l.strict == strict && l.feecaps.Keys == lim.fees.Keys
    ensures Filter(ctx, l, lim).removed != Matching(l.items, tx => TooCostly(ctx, lim, tx))
  {
    var tx := Transaction(1, 1, 0, 100, 10, 5, 5, 5, 0, Some(7), false, 0, 0, false);
    ctx := Context(map[], 0);
    l := Stored(ctx, EmptyList(strict), tx);
    lim := Limits(0, map[7 := 50], 10);
    assert l.items[0] == tx && tx.Fee() == 50;
    assert ListOk(l) && CanBail(l, lim);
    assert Overlooked(ctx, lim, l.items[0]);
    FilterIsExactIff(ctx, l, lim);
  }

  // ---------- Strict lists stay consecutive ----------

  /** Kept, removed and invalidated transactions partition the list. */
  ghost predicate Partition(m: Items, o: FilterOutcome) {
    && m.Keys == o.list.items.Keys + o.removed.Keys + o.invalids.Keys
    && o.list.items.Keys !! o.removed.Keys !! o.invalids.Keys
    && (forall n | n in o.list.items :: o.list.items[n] == m[n])
    && (forall n | n in o.removed :: o.removed[n] == m[n])
    && (forall n | n in o.invalids :: o.invalids[n] == m[n])
  }

  /** In a strict list everything kept is below everything removed, and the invalidated part starts above the
      lowest removed nonce. */
  ghost predicate CutInOrder(o: FilterOutcome) {
    && (o.removed == map[] ==> o.invalids == map[])
    && (forall k, r | k in o.list.items && r in o.removed :: k < r)
    && (forall k, i | k in o.list.items && i in o.invalids :: k < i)
    && (forall i | i in o.invalids :: exists r | r in o.removed :: r < i)
  }

  lemma CutPartitions(l: List, removed: Items)
    requires forall n | n in removed :: n in l.items && removed[n] == l.items[n]
    ensures Partition(l.items, Cut(l, removed))
    ensures l.strict ==> CutInOrder(Cut(l, removed))
    ensures l.strict && Contiguous(l.items.Keys) ==> Contiguous(Cut(l, removed).list.items.Keys)
  {
    if l.strict && removed != map[] {
      assert removed.Keys != {};
      var lowest := Min(removed.Keys);
      var o := Cut(l, removed);
      forall i | i in o.invalids
        ensures exists r | r in o.removed :: r < i
      {
        assert lowest in o.removed && lowest < i;
      }
    }
  }

  lemma FilterPartitions(ctx: Context, l: List, lim: Limits)
    ensures Partition(l.items, Filter(ctx, l, lim))
    ensures l.strict ==> CutInOrder(Filter(ctx, l, lim))
    ensures l.strict && Contiguous(l.items.Keys) ==> Contiguous(Filter(ctx, l, lim).list.items.Keys)
  {
    if !CanBail(l, lim) {
      CutPartitions(Lowered(l, lim), Matching(l.items, tx => TooCostly(ctx, lim, tx)));
    }
  }

  lemma FilterOnGasLimitPartitions(l: List, limit: nat)
    ensures Partition(l.items, FilterOnGasLimit(l, limit))
    ensures l.strict ==> CutInOrder(FilterOnGasLimit(l, limit))
    ensures l.strict && Contiguous(l.items.Keys) ==> Contiguous(FilterOnGasLimit(l, limit).list.items.Keys)
  {
    if l.gascap > limit {
      CutPartitions(l.(gascap := limit), Matching(l.items, (tx: Transaction) => tx.gas > limit));
    }
  }

  lemma RemovePartitions(l: List, nonce: nat)
    ensures Partition(l.items, Remove(l, nonce))
    ensures l.strict ==> CutInOrder(Remove(l, nonce))
    ensures l.strict && Contiguous(l.items.Keys) ==> Contiguous(Remove(l, nonce).list.items.Keys)
  {
    if nonce in l.items {
      CutPartitions(l, map[nonce := l.items[nonce]]);
    }
  }

  lemma ForwardAndCapKeepContiguous(m: Items, t: nat, k: nat)
    requires Contiguous(m.Keys)
    ensures Contiguous(From(m, t).Keys) && Contiguous(LowestPart(m, k).Keys)
  {
    LowestIsLowerPart(m.Keys, k);
  }
}
