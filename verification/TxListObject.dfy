/** txList as an object: the list value of module TxLists, kept in a sorted map and updated in place. */
module ListObject {
  import opened Options
  import opened Types
  import opened NonceMap
  import opened Currency
  import opened TxLists
  import Value = TxLists
  import SortedMap

  class TxList {
    const strict: bool
    const txs: SortedMap.TxSortedMap
    var nativecostcap: nat
    var feecaps: map<Address, nat>
    var gascap: nat

    ghost function State(): List
      reads this, txs
    {
      List(strict, txs.items, nativecostcap, feecaps, gascap)
    }

    ghost predicate Valid()
      reads this, txs
    {
      txs.Valid() && ListOk(State())
    }

    constructor (strict: bool)
      ensures Valid() && fresh(txs) && State() == EmptyList(strict)
    {
      this.strict := strict;
      txs := new SortedMap.TxSortedMap();
      nativecostcap, feecaps, gascap := 0, map[], 0;
    }

    /** Adds `tx` if its price allows. Without a rate it is stored too, but reported as refused and with the caps left
        alone, which keeps the list in order exactly when it lies within them. */
    method Add(ctx: Context, tx: Transaction, bump: nat) returns (inserted: bool, replaced: Option<Transaction>)
      requires Valid()
      modifies this, txs
      ensures AddOutcome(State(), inserted, replaced) == Value.Add(ctx, old(State()), tx, bump)
      ensures txs.Valid()
      ensures Valid() <==> Rated(ctx, tx) || !Accepts(ctx, old(txs.items), tx, bump) || WithinCaps(old(State()), tx)
    {
      AddKeepsOk(ctx, State(), tx, bump);
      replaced := if tx.nonce in txs.items then Some(txs.items[tx.nonce]) else None;
      if replaced.Some? && !Replaces(ctx, replaced.value, tx, bump) {
        return false, None;
      }
      txs.Put(tx);
      if tx.feeCurrency.Some? && tx.denominated && tx.feeCurrency.value !in ctx.rates {
        return false, None;
      }
      RaiseCaps(ctx, tx);
      return true, replaced;
    }

    /** Raises the caps to the cost of a stored transaction. */
    method RaiseCaps(ctx: Context, tx: Transaction)
      requires Rated(ctx, tx)
      modifies `nativecostcap, `feecaps, `gascap
      ensures State().(items := old(txs.items)[tx.nonce := tx]) == Stored(ctx, old(State()), tx)
    {
      if tx.feeCurrency.None? {
        if nativecostcap < tx.Cost() {
          nativecostcap := tx.Cost();
        }
      } else {
        var c := tx.feeCurrency.value;
        var fee := FeeInCurrency(ctx, tx);
        if c !in feecaps || feecaps[c] < fee {
          feecaps := feecaps[c := fee];
        }
        if nativecostcap < tx.value {
          nativecostcap := tx.value;
        }
      }
      if gascap < tx.gas {
        gascap := tx.gas;
      }
      assert feecaps == Stored(ctx, old(State()), tx).feecaps;
    }

    method Forward(threshold: nat) returns (removed: seq<Transaction>)
      requires Valid()
      modifies this, txs
      ensures Valid()
      ensures State() == old(State()).(items := From(old(txs.items), threshold))
      ensures IsListing(Below(old(txs.items), threshold), removed)
    {
      SubsetKeepsOk(State(), From(txs.items, threshold));
      removed := txs.Forward(threshold);
    }

    method Filter(ctx: Context, lim: Limits) returns (removed: seq<Transaction>, invalids: seq<Transaction>)
      requires Valid() && lim.fees.Keys == feecaps.Keys
      modifies this, txs
      ensures Valid()
      ensures State() == Value.Filter(ctx, old(State()), lim).list
      ensures Collects(Value.Filter(ctx, old(State()), lim).removed, removed)
      ensures Collects(Value.Filter(ctx, old(State()), lim).invalids, invalids)
    {
      FilterKeepsOk(ctx, State(), lim);
      var canBail := LowerCaps(lim);
      if canBail {
        return [], [];
      }
      var f := (tx: Transaction) => TooCostly(ctx, lim, tx);
      removed, invalids := RemoveMatching(f);
    }

    /** Brings each cap down to its limit and reports whether none was above. */
    method LowerCaps(lim: Limits) returns (canBail: bool)
      requires lim.fees.Keys == feecaps.Keys
      modifies this
      ensures canBail == CanBail(old(State()), lim)
      ensures State() == if canBail then old(State()) else Lowered(old(State()), lim)
    {
      canBail := true;
      if nativecostcap > lim.native {
        canBail, nativecostcap := false, lim.native;
      }
      if gascap > lim.gas {
        canBail, gascap := false, lim.gas;
      }
      var within := LowerFeeCaps(lim.fees);
      canBail := canBail && within;
      if !canBail {
        assert feecaps == Lowered(old(State()), lim).feecaps;
      }
    }

    /** The part of LowerCaps that goes over the fee currencies. */
    method LowerFeeCaps(fees: map<Address, nat>) returns (within: bool)
      requires fees.Keys == feecaps.Keys
      modifies `feecaps
      ensures feecaps == map c | c in old(feecaps) :: Min2(old(feecaps)[c], fees[c])
      ensures within <==> forall c | c in fees :: old(feecaps)[c] <= fees[c]
      ensures within ==> feecaps == old(feecaps)
    {
      within := true;
      var todo := fees.Keys;
      while todo != {}
        invariant todo <= fees.Keys == feecaps.Keys == old(feecaps).Keys
        invariant forall c | c in feecaps ::
                  feecaps[c] == if c in todo then old(feecaps)[c] else Min2(old(feecaps)[c], fees[c])
        invariant within <==> forall c | c in fees && c !in todo :: old(feecaps)[c] <= fees[c]
        decreases |todo|
      {
        var c :| c in todo;
        if feecaps[c] > fees[c] {
          within, feecaps := false, feecaps[c := fees[c]];
        }
        todo := todo - {c};
      }
    }

    /** Removes what `f` selects and, on a strict list, everything above the lowest removed nonce. */
    method RemoveMatching(f: Transaction -> bool) returns (removed: seq<Transaction>, invalids: seq<Transaction>)
      requires txs.Valid()
      modifies txs
      ensures txs.Valid()
      ensures State() == Cut(old(State()), Matching(old(txs.items), f)).list
      ensures Collects(Matching(old(txs.items), f), removed)
      ensures Collects(Cut(old(State()), Matching(old(txs.items), f)).invalids, invalids)
    {
      invalids := [];
      removed := txs.Filter(f);
      assert txs.items == old(txs.items) - Matching(old(txs.items), f).Keys;
      if strict && |removed| > 0 {
        var lowest := LowestNonce(removed);
        LowestOfCollection(Matching(old(txs.items), f), removed, lowest);
        ghost var rest := txs.items;
        invalids := txs.Filter((tx: Transaction) => tx.nonce > lowest);
        AboveCut(rest, lowest);
      }
    }

    method FilterOnGasLimit(limit: nat) returns (removed: seq<Transaction>, invalids: seq<Transaction>)
      requires Valid()
      modifies this, txs
      ensures Valid()
      ensures State() == Value.FilterOnGasLimit(old(State()), limit).list
      ensures Collects(Value.FilterOnGasLimit(old(State()), limit).removed, removed)
      ensures Collects(Value.FilterOnGasLimit(old(State()), limit).invalids, invalids)
    {
      FilterOnGasLimitKeepsOk(State(), limit);
      if gascap <= limit {
        return [], [];
      }
      gascap := limit;
      removed, invalids := RemoveMatching((tx: Transaction) => tx.gas > limit);
    }

    method Cap(threshold: nat) returns (drops: seq<Transaction>)
      requires Valid()
      modifies this, txs
      ensures Valid()
      ensures State() == old(State()).(items := LowestPart(old(txs.items), threshold))
      ensures Collects(HighestPart(old(txs.items), threshold), drops) && Descending(drops)
    {
      SubsetKeepsOk(State(), LowestPart(txs.items, threshold));
      drops := txs.Cap(threshold);
    }

    method Remove(tx: Transaction) returns (found: bool, invalids: seq<Transaction>)
      requires Valid()
      modifies this, txs
      ensures Valid()
      ensures found <==> tx.nonce in old(txs.items)
      ensures State() == Value.Remove(old(State()), tx.nonce).list
      ensures Collects(Value.Remove(old(State()), tx.nonce).invalids, invalids)
    {
      RemoveKeepsOk(State(), tx.nonce);
      invalids := [];
      found := txs.Remove(tx.nonce);
      RemoveUnfolds(old(State()), tx.nonce);
      if found && strict {
        AboveCut(txs.items, tx.nonce);
        invalids := txs.Filter((t: Transaction) => t.nonce > tx.nonce);
      }
    }

    method Ready(start: nat) returns (ready: seq<Transaction>)
      requires Valid()
      modifies this, txs
      ensures Valid()
      ensures State() == old(State()).(items := NotReadyPart(old(txs.items), start))
      ensures IsListing(ReadyPart(old(txs.items), start), ready)
    {
      SubsetKeepsOk(State(), NotReadyPart(txs.items, start));
      ready := txs.Ready(start);
    }
  }

  method LowestNonce(s: seq<Transaction>) returns (lowest: nat)
    requires |s| > 0
    ensures exists i | 0 <= i < |s| :: s[i].nonce == lowest
    ensures forall i | 0 <= i < |s| :: lowest <= s[i].nonce
  {
    lowest := s[0].nonce;
    for k := 1 to |s|
      invariant exists i | 0 <= i < |s| :: s[i].nonce == lowest
      invariant forall i | 0 <= i < k :: lowest <= s[i].nonce
    {
      if lowest > s[k].nonce {
        lowest := s[k].nonce;
      }
    }
  }

  lemma LowestOfCollection(m: Items, s: seq<Transaction>, lowest: nat)
    requires Collects(m, s)
    requires exists i | 0 <= i < |s| :: s[i].nonce == lowest
    requires forall i | 0 <= i < |s| :: lowest <= s[i].nonce
    ensures m.Keys != {} && Min(m.Keys) == lowest
  {
    CollectsAll(m, s);
    assert IsMin(m.Keys, lowest);
  }

  lemma RemoveUnfolds(l: List, nonce: nat)
    ensures var o, rest := Value.Remove(l, nonce), l.items - {nonce};
            o.list == l.(items := if l.strict && nonce in l.items then Below(rest, nonce) else rest)
            && o.invalids == if l.strict && nonce in l.items then From(rest, nonce) else map[]
  {
    var rest := l.items - {nonce};
    if nonce in l.items {
      var removed := map[nonce := l.items[nonce]];
      assert removed.Keys == {nonce} && Min({nonce}) == nonce;
    } else {
      assert rest == l.items;
    }
  }

  lemma AboveCut(m: Items, lowest: nat)
    requires Keyed(m) && lowest !in m
    ensures Without(m, (tx: Transaction) => tx.nonce > lowest) == Below(m, lowest)
    ensures Matching(m, (tx: Transaction) => tx.nonce > lowest) == From(m, lowest)
  {
  }
}
