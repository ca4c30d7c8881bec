/** What the pool takes to be payable, held against what the state transition asks for. */
module PoolFees {
  import opened Options
  import opened Types
  import opened Currency
  import opened Ledgers
  import opened TxLists
  import opened PoolInvariant
  import opened PoolStages
  import opened StateTransitions
  import PriceHeaps

  /** Every kind of transaction has its fee cap for a price. */
  predicate PricedByCap(tx: Transaction) {
    tx.gasPrice == tx.gasFeeCap
  }

  /** The message of a transaction, at the effective price if there is a base fee. */
  function AsMessage(tx: Transaction, recipient: Option<Address>, ethCompatible: bool, baseFee: Option<nat>): Message {
    Message(tx.from, tx.nonce, false, ethCompatible, tx.gas,
            if baseFee.Some? then EffectiveGasPrice(tx.gasTipCap, tx.gasFeeCap, baseFee.value) else tx.gasPrice,
            tx.gasFeeCap, tx.gasTipCap, tx.value, tx.feeCurrency,
            if tx.denominated then Some(tx.maxFeeInFeeCurrency) else None, recipient, tx.gatewayFee)
  }

  /** The price heaps and the state transition mean the same tip: the effective price is the base fee and that tip. */
  lemma PriceIsBaseAndTip(tx: Transaction, recipient: Option<Address>, ethCompatible: bool, baseFee: nat)
    ensures AsMessage(tx, recipient, ethCompatible, Some(baseFee)).gasPrice
            == baseFee + PriceHeaps.EffectiveTip(tx, Some(baseFee))
  {
  }

  lemma SameProducts(tx: Transaction)
    ensures tx.gas * tx.gasPrice == tx.gasPrice * tx.gas
  {
  }

  /** The pool's limits are those of the fee check: a transaction that pays in CELO, or in a token at its token price,
      is affordable if and only if its message passes, within the gas limit and with the value there. */
  lemma AffordableIff(st: ChainState, tx: Transaction, recipient: Option<Address>, ethCompatible: bool,
                      baseFee: Option<nat>, env: Env)
    requires PricedByCap(tx) && !tx.denominated && env.forks.espresso && env.balanceKnown
    requires recipient.Some? || tx.gatewayFee == 0
    ensures var a, m := tx.from, AsMessage(tx, recipient, ethCompatible, baseFee);
            var balance := if tx.feeCurrency.None? then st.balance(a) else st.token(a, tx.feeCurrency.value);
            Affordable(st, a, tx) <==>
              && tx.gas <= st.maxGas && CanPayFee(m, env, balance).None?
              && (tx.feeCurrency.Some? ==> tx.value <= st.balance(a))
  {
    SameProducts(tx);
  }

  /** What the full scan of the filter removes: what is above the gas limit or below the price floor, what the fee check
      refuses, and of the transactions paying in tokens also those that leave no token over, or whose value is not
      there. */
  lemma ScanRemovesIff(st: ChainState, l: List, tx: Transaction, recipient: Option<Address>, ethCompatible: bool,
                       env: Env)
    requires PricedByCap(tx) && env.forks.espresso && env.balanceKnown && (recipient.Some? || tx.gatewayFee == 0)
    requires tx.feeCurrency.Some? ==>
               && tx.feeCurrency.value in l.feecaps && Rated(st.ctx, tx)
               && (tx.denominated ==> env.rate == st.ctx.rates[tx.feeCurrency.value])
    requires tx.feeCurrency.None? ==> !tx.denominated
    ensures var a, m := tx.from, AsMessage(tx, recipient, ethCompatible, None);
            TooCostly(st.ctx, LimitsFor(st, a, l), tx) <==>
              || tx.gas > st.maxGas || BelowFloor(st.ctx, tx)
              || if tx.feeCurrency.None? then CanPayFee(m, env, st.balance(a)).Some?
                 else tx.value > st.balance(a) || CanPayFee(m, env, st.token(a, tx.feeCurrency.value) - 1).Some?
  {
    SameProducts(tx);
  }

  /** The floor is compared by worth, where the rate is known. */
  lemma BelowFloorMeans(ctx: Context, tx: Transaction)
    requires Known(ctx, tx.DenominatedFeeCurrency())
    ensures BelowFloor(ctx, tx) <==>
              Worth(ctx, tx.gasPrice, if tx.denominated then None else tx.feeCurrency) < ctx.priceFloor as real
  {
    CmpIsWorthOrder(ctx, ctx.priceFloor, None, tx.gasPrice, tx.DenominatedFeeCurrency());
    assert Worth(ctx, ctx.priceFloor, None) == ctx.priceFloor as real;
  }

  /** The balances and nonces of `st`, as the state transition finds them. */
  ghost predicate Agrees(st: ChainState, w: World, nonces: Nonces) {
    && (forall a :: Balance(LedgerIn(w, None), a) == st.balance(a) && NonceIn(nonces, a) == st.nonce(a))
    && (forall a, c :: Balance(LedgerIn(w, Some(c)), a) == st.token(a, c))
  }

  /** After a reset the first pending transaction of every account can be applied to the state of the new head, as far
      as that is up to the account: what is left is whether the block takes its kind and its price, has the gas, and
      whether the token's contract answers. */
  lemma FirstPendingApplies(st: ChainState, p: Lists, tx: Transaction, recipient: Option<Address>, ethCompatible: bool,
                            baseFee: Option<nat>, env: Env, intrinsic: nat, poolGas: nat, w: World, nonces: Nonces)
    requires ListsOk(p, true) && AllExecutable(st, p) && Agrees(st, w, nonces)
    requires Holds(ItemsAt(p, tx.from), tx) && tx.nonce == st.nonce(tx.from) && PricedByCap(tx) && !tx.denominated
    requires var m := AsMessage(tx, recipient, ethCompatible, baseFee); Admissible(m, env) && PricesOk(m, env)
    requires env.forks.espresso && env.whitelisted && env.balanceKnown && env.debitOk && env.creditOk
    requires intrinsic <= tx.gas && st.maxGas <= poolGas
    ensures Applies(AsMessage(tx, recipient, ethCompatible, baseFee), env, intrinsic, poolGas, w, nonces)
  {
    hide Admissible, PricesOk, CanPayFee;
    assert Executable(st, tx.from, p[tx.from].items) && Affordable(st, tx.from, tx);
    PaysAndTransfers(st, tx, recipient, ethCompatible, baseFee, env, w);
  }

  lemma PaysAndTransfers(st: ChainState, tx: Transaction, recipient: Option<Address>, ethCompatible: bool,
                         baseFee: Option<nat>, env: Env, w: World)
    requires Affordable(st, tx.from, tx) && PricedByCap(tx) && !tx.denominated && env.forks.espresso && env.balanceKnown
    requires Balance(LedgerIn(w, None), tx.from) == st.balance(tx.from)
    requires tx.feeCurrency.Some? ==>
               Balance(LedgerIn(w, tx.feeCurrency), tx.from) == st.token(tx.from, tx.feeCurrency.value)
    ensures var m := AsMessage(tx, recipient, ethCompatible, baseFee);
            CanPayFee(m, env, Balance(LedgerIn(w, m.feeCurrency), m.from)).None? && Transferable(m, env, w)
  {
    SameProducts(tx);
    var m := AsMessage(tx, recipient, ethCompatible, baseFee);
    MulMono(m.gas, m.gasPrice, m.gasFeeCap);
  }
}
