/** Whole runs of the transaction pool: any sequence of submissions, maintenance runs, evictions and removals. */
module PoolRuns {
  import opened Options
  import opened Types
  import opened Currency
  import opened Lookup
  import opened PoolInvariant
  import opened PoolTruncation
  import opened PoolViews
  import opened PoolStages
  import opened Pool

  datatype Op =
    | Submit(batch: seq<Submission>, local: bool)
    | Maintain(reset: Option<NewHead>, dirty: set<Address>)
    | Evict(lifetime: nat)
    | Remove(hash: Hash)

  /** Denominated in a currency of `keys`, if it needs a rate at all. */
  predicate UsesOnly(keys: set<Address>, tx: Transaction) {
    tx.denominated && tx.feeCurrency.Some? ==> tx.feeCurrency.value in keys
  }

  /** The currencies a batch needs rates for. */
  function UsedBy(batch: seq<Submission>): set<Address> {
    set i | 0 <= i < |batch| && batch[i].invalid.None? && batch[i].tx.denominated && batch[i].tx.feeCurrency.Some? ::
      batch[i].tx.feeCurrency.value
  }

  /** With rates for the currencies `keys`, of which the pool has been handed transactions in `used`: valid transactions
      are denominated in no others, and a new head has a rate for what is in use. */
  predicate Workable(used: set<Address>, keys: set<Address>, op: Op) {
    match op
    case Submit(batch, _) => UsedBy(batch) <= keys
    case Maintain(reset, _) => Moves(reset) ==> used + UsedBy(reset.value.reinject) <= reset.value.state.ctx.rates.Keys
    case _ => true
  }

  /** The currencies with a rate after `op`. */
  function KeysAfter(keys: set<Address>, op: Op): set<Address> {
    if op.Maintain? && Moves(op.reset) then op.reset.value.state.ctx.rates.Keys else keys
  }

  /** The currencies used once `op` has handed in its transactions. */
  function UsedAfter(used: set<Address>, op: Op): set<Address> {
    match op
    case Submit(batch, _) => used + UsedBy(batch)
    case Maintain(reset, _) => if Moves(reset) then used + UsedBy(reset.value.reinject) else used
    case _ => used
  }

  /** Each operation is workable with the rates of the head before it. */
  predicate AllWorkable(used: set<Address>, keys: set<Address>, ops: seq<Op>)
    decreases |ops|
  {
    ops != [] ==>
      Workable(used, keys, ops[0]) && AllWorkable(UsedAfter(used, ops[0]), KeysAfter(keys, ops[0]), ops[1..])
  }

  /** The pool has transactions in no other currencies. */
  ghost predicate InUse(used: set<Address>, z: TwoSides) {
    && (forall h | h in z.locals :: UsesOnly(used, z.locals[h]))
    && (forall h | h in z.remotes :: UsesOnly(used, z.remotes[h]))
  }

  lemma UsedRated(ctx: Context, used: set<Address>, z: TwoSides)
    requires InUse(used, z) && used <= ctx.rates.Keys
    ensures RatedAll(ctx, z.locals + z.remotes)
  {
  }

  lemma BatchRated(ctx: Context, batch: seq<Submission>, i: nat)
    requires UsedBy(batch) <= ctx.rates.Keys && i < |batch|
    ensures batch[i].RatedIfValid(ctx)
  {
  }

  lemma FewerInUse(used: set<Address>, z: TwoSides, z': TwoSides)
    requires InUse(used, z) && Fewer(z', z)
    ensures InUse(used, z')
  {
  }

  /** Adding a batch uses its currencies, and no others. */
  lemma {:induction false} AddedInUse(config: Config, ctx: Context, views: seq<View>, batch: seq<Submission>,
                                      local: bool, errs: seq<Option<PoolError>>, replaced: seq<bool>,
                                      used: set<Address>, k: nat)
    requires AddedInTurn(config, ctx, views, batch, local, errs, replaced) && k <= |batch|
    requires InUse(used, views[0].Sides())
    ensures InUse(used + UsedBy(batch), views[k].Sides())
    decreases k
  {
    hide Added;
    if k > 0 {
      AddedInUse(config, ctx, views, batch, local, errs, replaced, used, k - 1);
      assert Outcome(views[k], errs[k - 1], replaced[k - 1])
          == Added(config, ctx, views[k - 1], batch[k - 1], local);
      AddedBrings(config, ctx, views[k - 1], batch[k - 1], local);
      assert batch[k - 1].invalid.None? ==> UsesOnly(UsedBy(batch), batch[k - 1].tx);
    }
  }

  /** One operation keeps the pool consistent. */
  method Perform(pool: TxPool, op: Op, ghost used: set<Address>, now: nat)
    requires pool.Valid() && pool.config.accountSlots >= 1 && InUse(used, pool.all.Sides())
    requires Workable(used, pool.state.ctx.rates.Keys, op)
    modifies pool, pool.all, pool.pendingNonces
    ensures pool.Valid() && pool.state.ctx.rates.Keys == KeysAfter(old(pool.state.ctx.rates.Keys), op)
    ensures InUse(UsedAfter(used, op), pool.all.Sides())
    ensures pool.pendingNonces == old(pool.pendingNonces) || fresh(pool.pendingNonces)
  {
    hide TxPool.Valid, RatedAll, Removed, RemovedNext, InUse, Fewer, UsedBy;
    match op
    case Submit(batch, local) =>
      SubmitAll(pool, batch, local, used, now);
    case Maintain(reset, dirty) =>
      RunMaintenance(pool, reset, dirty, used, now);
    case Evict(lifetime) =>
      pool.EvictStale(lifetime, now);
      FewerInUse(used, old(pool.all.Sides()), pool.all.Sides());
    case Remove(hash) =>
      FewerLess(pool.all.Sides(), hash);
      pool.RemoveTx(hash, now);
      FewerInUse(used, old(pool.all.Sides()), pool.all.Sides());
  }

  method SubmitAll(pool: TxPool, batch: seq<Submission>, local: bool, ghost used: set<Address>, now: nat)
    requires pool.Valid() && InUse(used, pool.all.Sides()) && UsedBy(batch) <= pool.state.ctx.rates.Keys
    modifies pool`pending, pool`queue, pool`beats, pool`locals, pool`changesSinceReorg, pool.all, pool.pendingNonces
    ensures pool.Valid() && InUse(used + UsedBy(batch), pool.all.Sides())
  {
    hide TxPool.Valid, RatedAll, AddedInTurn, AddStep, NextInTurn, PartsOf, InUse, UsedBy;
    forall i | 0 <= i < |batch|
      ensures batch[i].RatedIfValid(pool.state.ctx)
    {
      BatchRated(pool.state.ctx, batch, i);
    }
    var errs, dirty, replaced, views := pool.AddAll(batch, local, now);
    AddedInUse(pool.config, pool.state.ctx, views, batch, local, errs, replaced, used, |batch|);
  }

  method RunMaintenance(pool: TxPool, reset: Option<NewHead>, dirty: set<Address>, ghost used: set<Address>, now: nat)
    requires pool.Valid() && pool.config.accountSlots >= 1 && InUse(used, pool.all.Sides())
    requires Workable(used, pool.state.ctx.rates.Keys, Maintain(reset, dirty))
    modifies pool, pool.all, pool.pendingNonces
    ensures pool.Valid()
    ensures pool.state.ctx.rates.Keys == KeysAfter(old(pool.state.ctx.rates.Keys), Maintain(reset, dirty))
    ensures InUse(UsedAfter(used, Maintain(reset, dirty)), pool.all.Sides())
    ensures pool.pendingNonces == old(pool.pendingNonces) || fresh(pool.pendingNonces)
  {
    hide TxPool.Valid, TxPool.Contents, RatedAll, Refreshed, FairlyTruncated, QueueTruncated, Total, Len, NextAfter,
         InUse, UsedBy, Fewer, AllExecutable, Affordable, StartOf, UsedAfter;
    HeadRated(pool, reset, used);
    assert pool.Contents(now).Sides() == pool.all.Sides() by { SidesAre(pool, now); }
    var promoted, seen, t := pool.RunReorg(reset, dirty, {}, now);
    StartInUse(pool.config, pool.state, pool.locals, reset, dirty, old(pool.Contents(now)), old(pool.StageAt(now)),
               old(pool.NextNonces()), t, promoted, used);
    FewerInUse(UsedAfter(used, Maintain(reset, dirty)), StartOf(reset, t.added, old(pool.Contents(now))).Sides(),
               pool.all.Sides());
  }

  lemma SidesAre(pool: TxPool, now: nat)
    ensures pool.Contents(now).Sides() == pool.all.Sides()
  {
  }

  lemma StartInUse(config: Config, st: ChainState, locals: set<Address>, reset: Option<NewHead>, dirty: set<Address>,
                   v: View, s: Stage, nonces: map<Address, nat>, t: Trace, txs: seq<Transaction>, used: set<Address>)
    requires Refreshed(config, st, locals, reset, dirty, v, s, nonces, t, txs) && InUse(used, v.Sides())
    ensures InUse(UsedAfter(used, Maintain(reset, dirty)), StartOf(reset, t.added, v).Sides())
  {
    hide AddedInTurn, InUse, UsedBy, PartsOf, NoneEmpty, Consistent, ResetNonce, StageOk, PromotedStage, DemotedStage,
         ReadyInStage;
    var added := t.added;
    if Moves(reset) {
      AddedInUse(config, reset.value.state.ctx, added.views, reset.value.reinject, false, added.errs, added.replaced,
                 used, |reset.value.reinject|);
      assert |added.views| == |reset.value.reinject| + 1 by { TurnLength(config, reset.value, added); }
    }
  }

  lemma TurnLength(config: Config, head: NewHead, added: Readded)
    requires head.NewHead?
    requires AddedInTurn(config, head.state.ctx, added.views, head.reinject, false, added.errs, added.replaced)
    ensures |added.views| == |head.reinject| + 1
  {
  }

  lemma HeadRated(pool: TxPool, reset: Option<NewHead>, used: set<Address>)
    requires InUse(used, pool.all.Sides())
    requires Moves(reset) ==> used + UsedBy(reset.value.reinject) <= reset.value.state.ctx.rates.Keys
    ensures Moves(reset) ==>
              && RatedAll(reset.value.state.ctx, pool.all.Everything())
              && forall i | 0 <= i < |reset.value.reinject| ::
                   reset.value.reinject[i].RatedIfValid(reset.value.state.ctx)
  {
    if Moves(reset) {
      UsedRated(reset.value.state.ctx, used, pool.all.Sides());
      forall i | 0 <= i < |reset.value.reinject|
        ensures reset.value.reinject[i].RatedIfValid(reset.value.state.ctx)
      {
        BatchRated(reset.value.state.ctx, reset.value.reinject, i);
      }
    }
  }

  /** From the empty pool, every run keeps each known transaction in exactly one list, at its own nonce. */
  method Play(config: Config, state: ChainState, locals: set<Address>, ops: seq<Op>) returns (pool: TxPool)
    requires AllWorkable({}, state.ctx.rates.Keys, ops)
    ensures fresh(pool) && pool.Valid()
  {
    hide TxPool.Valid, Workable, UsedAfter;
    pool := new TxPool(config, state, locals);
    ghost var used: set<Address> := {};
    for i := 0 to |ops|
      invariant fresh(pool) && fresh(pool.all) && fresh(pool.pendingNonces) && pool.Valid()
      invariant InUse(used, pool.all.Sides())
      invariant pool.config.accountSlots >= 1 && AllWorkable(used, pool.state.ctx.rates.Keys, ops[i..])
    {
      assert ops[i..][1..] == ops[i + 1..];
      Perform(pool, ops[i], used, i);
      used := UsedAfter(used, ops[i]);
    }
  }
}
