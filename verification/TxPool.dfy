/** The transaction pool: pending and queued lists per account, and the lookup over both. */
module Pool {
  import opened Options
  import opened Types
  import opened NonceMap
  import opened Currency
  import opened TxLists
  import opened Lookup
  import opened Noncer
  import opened PoolInvariant
  import opened PoolTruncation
  import opened PoolViews
  import opened PoolStages
  import SortedMap

  ghost predicate RatedAll(ctx: Context, e: Known) {
    forall h | h in e :: Rated(ctx, e[h])
  }

  class TxPool {
    const config: Config
    const all: TxLookup
    var pendingNonces: TxNoncer
    var state: ChainState
    var pending: Lists
    var queue: Lists
    var beats: map<Address, nat>
    var locals: set<Address>
    var changesSinceReorg: nat

    /** The pool invariant while the transactions of `t` are between lists. */
    ghost predicate InTransit(t: Transit)
      reads this, all
    {
      && all.Valid()
      && Consistent(pending, queue, all.Everything(), t)
      && RatedAll(state.ctx, all.Everything())
      && Beating(queue, beats)
    }

    /** The pool invariant between operations. */
    ghost predicate Valid()
      reads this, all
    {
      InTransit(NO_TRANSIT) && NoneEmpty(pending) && NoneEmpty(queue)
    }

    ghost function Contents(now: nat): View
      reads this, all
    {
      View(PartsOf(pending), PartsOf(queue), all.locals, all.remotes, locals, changesSinceReorg, beats, now)
    }

    lemma KnownContents(now: nat)
      ensures Contents(now).Everything() == all.Everything()
    {
    }

    lemma InOrder(now: nat)
      requires Valid()
      ensures StageOk(StageAt(now))
    {
    }

    constructor (config: Config, state: ChainState, locals: set<Address>)
      ensures Valid() && fresh(all) && fresh(pendingNonces)
      ensures this.config == Sanitize(config) && this.state == state && this.locals == locals
      ensures pending == map[] && queue == map[] && all.Everything() == map[] && all.Sides() == TwoSides(map[], map[])
    {
      this.config := Sanitize(config);
      all := new TxLookup();
      pendingNonces := new TxNoncer(state.nonce);
      this.state := state;
      pending, queue, beats := map[], map[], map[];
      this.locals := locals;
      changesSinceReorg := 0;
    }

    /** Adds `tx` to its sender's queue, either as a newcomer (`addAll`) or out of transit. */
    method EnqueueTx(tx: Transaction, local: bool, addAll: bool, now: nat, ghost t: Transit)
      returns (ok: bool, replaced: bool)
      requires InTransit(t) && Rated(state.ctx, tx)
      requires tx.nonce !in ItemsAt(pending, tx.from)
      requires addAll ==> tx.hash !in all.Everything() && t.items == map[]
      requires !addAll ==> t.account == tx.from && Holds(t.items, tx)
      modifies this`queue, this`beats, all
      ensures ok <==> Accepts(state.ctx, old(ItemsAt(queue, tx.from)), tx, config.priceBump)
      ensures replaced <==> ok && tx.nonce in old(ItemsAt(queue, tx.from))
      ensures !ok ==> InTransit(t) && queue == old(queue) && beats == old(beats)
                      && all.Sides() == old(all.Sides())
                      && all.Everything() == old(all.Everything())
      ensures ok ==> InTransit(Transit(tx.from, t.items - {tx.nonce}))
      ensures ok ==> SameBut(old(queue), queue, tx.from) && tx.from in queue
                     && queue[tx.from].items == old(ItemsAt(queue, tx.from))[tx.nonce := tx]
      ensures ok && !addAll ==> all.Sides() == old(all.Sides())
                                && all.Everything() == old(all.Everything())
      ensures ok && addAll ==>
                var l, r := old(all.locals), old(all.remotes);
                var gone := Hashes(At(old(ItemsAt(queue, tx.from)), tx.nonce));
                && all.locals == (if local then (l - gone)[tx.hash := tx] else l - gone)
                && all.remotes == (if local then r - gone else (r - gone)[tx.hash := tx])
      ensures ok ==> Swapped(old(all.Everything()), all.Everything(), At(old(ItemsAt(queue, tx.from)), tx.nonce), tx)
      ensures ok ==> beats == if tx.from in old(beats) then old(beats) else old(beats)[tx.from := now]
    {
      hide Consistent, Swapped, RatedAll, Stored, Replaces, SameBut;
      var l := if tx.from in queue then queue[tx.from] else EmptyList(false);
      assert l.items == ItemsAt(queue, tx.from);
      var o := TxLists.Add(state.ctx, l, tx, config.priceBump);
      if !o.inserted {
        return false, false;
      }
      ok, replaced := true, o.replaced.Some?;
      StoredItems(state.ctx, l, tx);
      EnqueueReady(pending, queue, all.Everything(), t, tx);
      SwapLookup(tx, local, addAll, o.replaced);
      EnqueueStep(state.ctx, pending, queue, old(all.Everything()), t, tx, all.Everything(),
                  Transit(tx.from, t.items - {tx.nonce}));
      PutList(queue, tx.from, o.list);
      queue := queue[tx.from := o.list];
      if tx.from !in beats {
        beats := beats[tx.from := now];
      }
    }

    /** Takes a replaced transaction out of the lookup and puts a newcomer in. */
    method SwapLookup(tx: Transaction, local: bool, addAll: bool, replaced: Option<Transaction>)
      requires all.Valid() && RatedAll(state.ctx, all.Everything()) && Rated(state.ctx, tx)
      requires replaced.Some? ==> InLookup(all.Everything(), replaced.value)
      requires if addAll then tx.hash !in all.Everything() else replaced.None? && InLookup(all.Everything(), tx)
      modifies all
      ensures all.Valid() && RatedAll(state.ctx, all.Everything())
      ensures Swapped(old(all.Everything()), all.Everything(), replaced, tx)
      ensures !addAll ==> all.Sides() == old(all.Sides())
      ensures addAll ==>
                var l, r, gone := old(all.locals), old(all.remotes), Hashes(replaced);
                && all.locals == (if local then (l - gone)[tx.hash := tx] else l - gone)
                && all.remotes == (if local then r - gone else (r - gone)[tx.hash := tx])
    {
      LookupSwapped(all.Everything(), replaced, tx);
      if replaced.Some? {
        all.Remove(replaced.value.hash);
      }
      assert all.locals == old(all.locals) - Hashes(replaced) && all.remotes == old(all.remotes) - Hashes(replaced);
      if addAll {
        all.Add(tx, local);
      } else {
        assert all.Everything() == all.Everything()[tx.hash := tx];
      }
    }

    /** Takes the transactions of `gone` out of the lookup; locals stay local and remotes remote. */
    method Forget(gone: Items)
      requires all.Valid() && RatedAll(state.ctx, all.Everything()) && Keyed(gone)
      requires forall n | n in gone :: InLookup(all.Everything(), gone[n])
      modifies all
      ensures all.Valid() && RatedAll(state.ctx, all.Everything())
      ensures Forgot(old(all.Everything()), all.Everything(), gone)
      ensures Fewer(all.Sides(), old(all.Sides()))
    {
      LookupKeyed(all);
      hide RatedAll, Fewer, Forgotten, Forgot, Keyed, TxLookup.Valid, TxLookup.Everything;
      ghost var e, z := all.Everything(), all.Sides();
      ForgottenNone(state.ctx, e, z, gone);
      ForgetEach(gone, state.ctx, e, z);
      ForgottenAll(state.ctx, e, z, gone, all.Everything(), all.Sides());
    }

    method ForgetEach(gone: Items, ghost ctx: Context, ghost e: Known, ghost z: TwoSides)
      requires all.Valid() && Forgotten(ctx, e, z, gone, gone, all.Everything(), all.Sides())
      modifies all
      ensures all.Valid() && Forgotten(ctx, e, z, gone, map[], all.Everything(), all.Sides())
    {
      hide Forgotten, TxLookup.Valid, TxLookup.Everything;
      var todo := gone;
      while todo != map[]
        invariant all.Valid() && Forgotten(ctx, e, z, gone, todo, all.Everything(), all.Sides())
        decreases |todo|
      {
        var n :| n in todo;
        ForgottenMore(ctx, e, z, gone, todo, all.Everything(), all.Sides(), n);
        all.Remove(todo[n].hash);
        todo := todo - {n};
      }
    }

    /** Replaces an account's pending list by its kept part, and forgets the removed part. */
    method CutPending(a: Address, o: FilterOutcome)
      requires InTransit(NO_TRANSIT) && a in pending && CutOf(pending[a], o, a, true)
      modifies this`pending, all
      ensures InTransit(Transit(a, o.invalids)) && pending == old(pending)[a := o.list]
      ensures Forgot(old(all.Everything()), all.Everything(), o.removed)
      ensures Fewer(all.Sides(), old(all.Sides()))
    {
      RemovedIsKnown(pending, queue, all.Everything(), a, pending[a].items, o.removed);
      hide Consistent, CutOf, Forgot, RatedAll;
      Forget(o.removed);
      CutPendingStep(pending, queue, old(all.Everything()), a, o, all.Everything());
      pending := pending[a := o.list];
    }

    method CutQueue(a: Address, o: FilterOutcome)
      requires InTransit(NO_TRANSIT) && a in queue && CutOf(queue[a], o, a, false)
      modifies this`queue, all
      ensures InTransit(Transit(a, o.invalids)) && queue == old(queue)[a := o.list]
      ensures Forgot(old(all.Everything()), all.Everything(), o.removed)
      ensures Fewer(all.Sides(), old(all.Sides()))
    {
      RemovedIsKnown(pending, queue, all.Everything(), a, queue[a].items, o.removed);
      hide Consistent, CutOf, Forgot, RatedAll;
      Forget(o.removed);
      CutQueueStep(pending, queue, old(all.Everything()), a, o, all.Everything());
      queue := queue[a := o.list];
    }

    /** Postpones the transactions in transit to their account's queue. */
    method EnqueueAll(a: Address, items: Items, now: nat)
      requires InTransit(Transit(a, items)) && NoneEmpty(queue) && Disjoint(items, ItemsAt(pending, a))
      modifies this`queue, this`beats, all
      ensures InTransit(NO_TRANSIT) && NoneEmpty(queue)
      ensures SameBut(old(queue), queue, a) && ItemsAt(queue, a) == old(ItemsAt(queue, a)) + items
      ensures beats == Requeued(old(beats), a, items, now)
      ensures all.Sides() == old(all.Sides())
      ensures all.Everything() == old(all.Everything())
    {
      hide Consistent, RatedAll, SameBut, NoneEmpty;
      var todo := items;
      SameButRefl(queue, a);
      while todo != map[]
        invariant InTransit(Transit(a, todo)) && NoneEmpty(queue) && todo.Keys <= items.Keys
        invariant SameBut(old(queue), queue, a) && ItemsAt(queue, a) + todo == old(ItemsAt(queue, a)) + items
        invariant beats == if todo == items then old(beats) else Beaten(old(beats), a, now)
        invariant all.Sides() == old(all.Sides())
        invariant all.Everything() == old(all.Everything())
        decreases |todo|
      {
        var n :| n in todo;
        ghost var before := queue;
        EnqueueOne(a, todo, n, now);
        MoveMore(ItemsAt(before, a), todo, n);
        SameButTrans(old(queue), before, queue, a);
        todo := todo - {n};
      }
      assert ItemsAt(queue, a) + map[] == ItemsAt(queue, a);
      EmptyTransit(pending, queue, all.Everything(), a, 0);
    }

    method EnqueueOne(a: Address, todo: Items, n: nat, now: nat)
      requires InTransit(Transit(a, todo)) && NoneEmpty(queue) && n in todo && n !in ItemsAt(pending, a)
      modifies this`queue, this`beats, all
      ensures InTransit(Transit(a, todo - {n})) && NoneEmpty(queue)
      ensures SameBut(old(queue), queue, a) && ItemsAt(queue, a) == old(ItemsAt(queue, a))[n := todo[n]]
      ensures beats == Beaten(old(beats), a, now)
      ensures all.Sides() == old(all.Sides())
      ensures all.Everything() == old(all.Everything())
    {
      hide Consistent, RatedAll, Replaces, SameBut, NoneEmpty;
      TransitTx(pending, queue, all.Everything(), Transit(a, todo), n, state.ctx);
      var ok, replaced := EnqueueTx(todo[n], false, false, now, Transit(a, todo));
      assert n in queue[a].items;
      StillNoneEmpty(old(queue), queue, a);
    }

    /** Moves `tx` from transit to its sender's pending list, or drops it when what is there is better. */
    method PromoteTx(tx: Transaction, now: nat, ghost t: Transit) returns (promoted: bool)
      requires InTransit(t) && t.account == tx.from && Holds(t.items, tx)
      requires !Holds(ItemsAt(pending, tx.from), tx)
      modifies this`pending, this`beats, all, pendingNonces
      ensures InTransit(Transit(tx.from, t.items - {tx.nonce}))
      ensures promoted <==> Accepts(state.ctx, old(ItemsAt(pending, tx.from)), tx, config.priceBump)
      ensures promoted ==> SameBut(old(pending), pending, tx.from) && tx.from in pending
                           && pending[tx.from].items == old(ItemsAt(pending, tx.from))[tx.nonce := tx]
      ensures promoted ==> Swapped(old(all.Everything()), all.Everything(),
                                   At(old(ItemsAt(pending, tx.from)), tx.nonce), tx)
      ensures promoted ==> beats == old(beats)[tx.from := now]
      ensures forall b :: pendingNonces.Nonce(b) ==
                if promoted && b == tx.from then Next(tx.nonce) else old(pendingNonces.Nonce(b))
      ensures !promoted ==> pending == old(pending) && beats == old(beats)
                            && all.Everything() == old(all.Everything()) - {tx.hash}
      ensures Fewer(all.Sides(), old(all.Sides()))
    {
      hide Consistent, Swapped, Stored, Replaces, RatedAll, Fewer, TxLookup.Valid, TxLookup.Everything, SameBut,
           Beating;
      TransitTx(pending, queue, all.Everything(), t, tx.nonce, state.ctx);
      PromoteReady(pending, queue, all.Everything(), t, tx);
      FewerRefl(all.Sides());
      var l := if tx.from in pending then pending[tx.from] else EmptyList(true);
      assert l.items == ItemsAt(pending, tx.from);
      var o := TxLists.Add(state.ctx, l, tx, config.priceBump);
      if !o.inserted {
        RefuseStep(pending, queue, all.Everything(), t, tx);
        ForgetKeeps(state.ctx, all.Everything(), all.Sides(), all.Sides(), tx.hash);
        all.Remove(tx.hash);
        return false;
      }
      StoredItems(state.ctx, l, tx);
      Unlist(tx, o.replaced);
      PromoteStep(state.ctx, pending, queue, old(all.Everything()), t, tx, all.Everything());
      PutList(pending, tx.from, o.list);
      pending := pending[tx.from := o.list];
      pendingNonces.Set(tx.from, Next(tx.nonce));
      StillBeating(queue, beats, tx.from, now);
      beats := beats[tx.from := now];
      return true;
    }

    /** Takes a replaced transaction out of the lookup, while `tx` stays in it. */
    method Unlist(ghost tx: Transaction, replaced: Option<Transaction>)
      requires all.Valid() && RatedAll(state.ctx, all.Everything()) && InLookup(all.Everything(), tx)
      requires replaced.Some? ==> InLookup(all.Everything(), replaced.value) && replaced.value != tx
      modifies all
      ensures all.Valid() && RatedAll(state.ctx, all.Everything())
      ensures Swapped(old(all.Everything()), all.Everything(), replaced, tx)
      ensures Fewer(all.Sides(), old(all.Sides()))
    {
      if replaced.Some? {
        all.Remove(replaced.value.hash);
      }
    }

    /** Removes a transaction wherever it is; what a pending removal invalidates goes back to the queue. */
    method RemoveTx(hash: Hash, now: nat)
      requires Valid()
      modifies this`pending, this`queue, this`beats, all, pendingNonces
      ensures Valid() && Contents(now) == Removed(old(Contents(now)), hash)
      ensures all.Everything() == old(all.Everything()) - {hash} && all.Sides() == old(all.Sides()).Without(hash)
      ensures hash in old(all.Everything()) ==>
                var tx := old(all.Everything()[hash]);
                && SameBut(old(pending), pending, tx.from) && SameBut(old(queue), queue, tx.from)
                && RemovedFrom(old(ItemsAt(pending, tx.from)), old(ItemsAt(queue, tx.from)), ItemsAt(pending, tx.from),
                               ItemsAt(queue, tx.from), tx.nonce)
                && (tx.nonce !in old(ItemsAt(pending, tx.from)) ==> pending == old(pending))
      ensures forall b ::
                pendingNonces.Nonce(b) == RemovedNext(old(Contents(now)), hash, b, old(pendingNonces.Nonce(b)))
    {
      hide Consistent, RatedAll, NoneEmpty, SameBut, PartsOf, ItemsAt, SetPart, RemovedFrom;
      var found := all.Get(hash);
      if found.None? {
        assert all.Everything() - {hash} == all.Everything() && all.Sides().Without(hash) == all.Sides();
        return;
      }
      RemoveKnown(found.value, now);
    }

    method RemoveKnown(tx: Transaction, now: nat)
      requires Valid() && InLookup(all.Everything(), tx)
      modifies this`pending, this`queue, this`beats, all, pendingNonces
      ensures Valid() && all.Everything() == old(all.Everything()) - {tx.hash}
      ensures Contents(now) == Removed(old(Contents(now)), tx.hash) && all.Sides() == old(all.Sides()).Without(tx.hash)
      ensures SameBut(old(pending), pending, tx.from) && SameBut(old(queue), queue, tx.from)
      ensures RemovedFrom(old(ItemsAt(pending, tx.from)), old(ItemsAt(queue, tx.from)), ItemsAt(pending, tx.from),
                          ItemsAt(queue, tx.from), tx.nonce)
      ensures tx.nonce !in old(ItemsAt(pending, tx.from)) ==> pending == old(pending)
      ensures forall b ::
                pendingNonces.Nonce(b) == RemovedNext(old(Contents(now)), tx.hash, b, old(pendingNonces.Nonce(b)))
    {
      hide Consistent, RatedAll, NoneEmpty, SameBut, TxLookup.Valid, TxLookup.Everything, Removed, PartsOf, ItemsAt,
           PartAt, Requeued, Emptied, Beating, RemovedNext, Below, From, SetPart;
      KnownContents(now);
      KnownIsAtItsNonce(pending, queue, all.Everything(), tx);
      SameButRefl(pending, tx.from);
      PartAtItems(pending, tx.from);
      if tx.nonce in ItemsAt(pending, tx.from) {
        RemovePending(tx, now);
      } else {
        RemoveQueued(tx);
      }
      RemovedIsView(old(Contents(now)), old(pending), old(queue), pending, queue, beats, tx);
      forall b
        ensures pendingNonces.Nonce(b) == RemovedNext(old(Contents(now)), tx.hash, b, old(pendingNonces.Nonce(b)))
      {
        RemovedNextIs(old(Contents(now)), tx, b, old(pendingNonces.Nonce(b)));
      }
    }

    method RemovePending(tx: Transaction, now: nat)
      requires Valid() && InLookup(all.Everything(), tx) && Holds(ItemsAt(pending, tx.from), tx)
      modifies this`pending, this`queue, this`beats, all, pendingNonces
      ensures Valid() && all.Everything() == old(all.Everything()) - {tx.hash}
      ensures all.Sides() == old(all.Sides()).Without(tx.hash)
      ensures SameBut(old(pending), pending, tx.from) && SameBut(old(queue), queue, tx.from)
      ensures ItemsAt(pending, tx.from) == Below(old(ItemsAt(pending, tx.from)), tx.nonce)
      ensures ItemsAt(queue, tx.from)
              == old(ItemsAt(queue, tx.from)) + From(old(ItemsAt(pending, tx.from)), tx.nonce + 1)
      ensures beats == Requeued(old(beats), tx.from, From(old(ItemsAt(pending, tx.from)), tx.nonce + 1), now)
      ensures forall b :: pendingNonces.Nonce(b) ==
                if b == tx.from && tx.nonce < old(pendingNonces.Nonce(b)) then tx.nonce else old(pendingNonces.Nonce(b))
    {
      hide Consistent, RatedAll, SameBut, NoneEmpty, TxLookup.Valid, TxLookup.Everything;
      var invalids := TakePending(tx);
      EnqueueAll(tx.from, invalids, now);
      pendingNonces.SetIfLower(tx.from, tx.nonce);
    }

    /** Takes `tx` and everything above it off the pending list; `invalids` is what lies above. */
    method TakePending(tx: Transaction) returns (invalids: Items)
      requires Valid() && InLookup(all.Everything(), tx) && Holds(ItemsAt(pending, tx.from), tx)
      modifies this`pending, all
      ensures InTransit(Transit(tx.from, invalids)) && NoneEmpty(pending)
      ensures all.Everything() == old(all.Everything()) - {tx.hash}
      ensures all.Sides() == old(all.Sides()).Without(tx.hash)
      ensures SameBut(old(pending), pending, tx.from)
      ensures ItemsAt(pending, tx.from) == Below(old(ItemsAt(pending, tx.from)), tx.nonce)
      ensures invalids == From(old(ItemsAt(pending, tx.from)), tx.nonce + 1)
    {
      hide Consistent, CutOf, Forgot, RatedAll, ListFor, Remove, SameBut, NoneEmpty, TxLookup.Valid,
           TxLookup.Everything;
      var a := tx.from;
      ConsistentAt(pending, queue, all.Everything(), a);
      ForgetHash(all.Everything(), tx);
      FewerRefl(all.Sides());
      ForgetKeeps(state.ctx, all.Everything(), all.Sides(), all.Sides(), tx.hash);
      all.Remove(tx.hash);
      var o := Remove(pending[a], tx.nonce);
      RemoveUnfolds(pending[a], tx.nonce);
      RemoveIsCut(pending[a], tx.nonce, a, true);
      CutPendingStep(pending, queue, old(all.Everything()), a, o, all.Everything());
      invalids := o.invalids;
      pending := pending[a := o.list];
      if pending[a].items == map[] {
        DropEmptyPending(pending, queue, all.Everything(), Transit(a, o.invalids), a);
        pending := pending - {a};
      }
      AfterCut(old(pending), pending, a, o.list);
    }

    method RemoveQueued(tx: Transaction)
      requires Valid() && InLookup(all.Everything(), tx) && Holds(ItemsAt(queue, tx.from), tx)
      modifies this`queue, this`beats, all
      ensures Valid() && all.Everything() == old(all.Everything()) - {tx.hash}
      ensures all.Sides() == old(all.Sides()).Without(tx.hash)
      ensures SameBut(old(queue), queue, tx.from)
      ensures ItemsAt(queue, tx.from) == old(ItemsAt(queue, tx.from)) - {tx.nonce}
      ensures beats == Emptied(old(beats), tx.from, ItemsAt(queue, tx.from))
    {
      hide Consistent, CutOf, Forgot, RatedAll, ListFor, Remove, SameBut, NoneEmpty, TxLookup.Valid,
           TxLookup.Everything;
      var a := tx.from;
      ConsistentAt(pending, queue, all.Everything(), a);
      ForgetHash(all.Everything(), tx);
      FewerRefl(all.Sides());
      ForgetKeeps(state.ctx, all.Everything(), all.Sides(), all.Sides(), tx.hash);
      all.Remove(tx.hash);
      var o := Remove(queue[a], tx.nonce);
      RemoveUnfolds(queue[a], tx.nonce);
      RemoveIsCut(queue[a], tx.nonce, a, false);
      CutQueueStep(pending, queue, old(all.Everything()), a, o, all.Everything());
      queue := queue[a := o.list];
      EmptyTransit(pending, queue, all.Everything(), a, 0);
      if queue[a].items == map[] {
        DropEmptyQueue(pending, queue, all.Everything(), NO_TRANSIT, a);
        queue := queue - {a};
        beats := beats - {a};
      }
      AfterCut(old(queue), queue, a, o.list);
    }

    /** Validates a transaction and queues it, or lets it replace a pending one. `invalid` is the outcome of the
        stateless checks. */
    method Add(tx: Transaction, local: bool, invalid: Option<nat>, advice: PriceAdvice, now: nat)
      returns (replaced: bool, err: Option<PoolError>)
      requires Valid() && (invalid.None? ==> Rated(state.ctx, tx))
      modifies this`pending, this`queue, this`beats, this`locals, this`changesSinceReorg, all, pendingNonces
      ensures Valid()
      ensures Outcome(Contents(now), err, replaced)
              == Added(config, state.ctx, old(Contents(now)), Submission(tx, invalid, advice), local)
      ensures forall a ::
                pendingNonces.Nonce(a)
                == AddedNext(config, old(Contents(now)), Submission(tx, invalid, advice), local, a,
                             old(pendingNonces.Nonce(a)))
      ensures AddStep(config, old(all.Everything()), all.Everything(), Submission(tx, invalid, advice), err, replaced)
      ensures err.None? ==> Holds(ItemsAt(pending, tx.from), tx) || Holds(ItemsAt(queue, tx.from), tx)
      ensures !local ==> locals == old(locals)
    {
      hide Consistent, RatedAll, NoneEmpty, TxLookup.Valid, Placed, RoomMade, RemovedAllNext, PartsOf, ItemsAt, PartAt,
           Full, RoomError, Accepts, Site, Found, Occupied;
      var known := all.Get(tx.hash);
      if known.Some? {
        return false, Some(AlreadyKnown);
      }
      if invalid.Some? {
        return false, Some(Invalid(invalid.value));
      }
      replaced, err := AddNew(tx, local, advice, now);
    }

    /** Adds an unknown, valid transaction: makes room and puts it in its place. */
    method AddNew(tx: Transaction, local: bool, advice: PriceAdvice, now: nat)
      returns (replaced: bool, err: Option<PoolError>)
      requires Valid() && Rated(state.ctx, tx) && tx.hash !in all.Everything()
      modifies this`pending, this`queue, this`beats, this`locals, this`changesSinceReorg, all, pendingNonces
      ensures Valid()
      ensures Outcome(Contents(now), err, replaced)
              == Added(config, state.ctx, old(Contents(now)), Submission(tx, None, advice), local)
      ensures forall a ::
                pendingNonces.Nonce(a)
                == AddedNext(config, old(Contents(now)), Submission(tx, None, advice), local, a,
                             old(pendingNonces.Nonce(a)))
      ensures err.None? || err.value in {Underpriced, PoolOverflow, ReplaceUnderpriced}
      ensures AddStep(config, old(all.Everything()), all.Everything(), Submission(tx, None, advice), err, replaced)
      ensures err.None? ==> Holds(ItemsAt(pending, tx.from), tx) || Holds(ItemsAt(queue, tx.from), tx)
      ensures !local ==> locals == old(locals)
    {
      hide Consistent, Swapped, Replaces, RatedAll, NoneEmpty, TxLookup.Valid, Placed, RoomMade, RemovedAllNext,
           PartsOf, ItemsAt, PartAt, Full, Members, AddStep, Occupied, Found;
      var isLocal := local || tx.from in locals;
      ghost var s := Submission(tx, None, advice);
      err := MakeRoom(tx, isLocal, advice, now);
      if err.Some? {
        StepRefused(config, all.Everything(), s, err.value);
        return false, err;
      }
      ghost var e, site := all.Everything(), Site(Contents(now), tx);
      FoundWithin(config, old(all.Everything()), s);
      PartAtItems(pending, tx.from);
      PartAtItems(queue, tx.from);
      SlotHolder(pending, queue, e, tx);
      var ok;
      ok, replaced := Place(tx, local, isLocal, now);
      if !ok {
        StepUnderpriced(config, old(all.Everything()), e, s);
        return false, Some(ReplaceUnderpriced);
      }
      StepAdded(config, old(all.Everything()), e, all.Everything(), s, At(site, tx.nonce), replaced);
    }

    /** Puts `tx` in place of a pending transaction, or in the queue. */
    method Place(tx: Transaction, local: bool, isLocal: bool, now: nat) returns (ok: bool, replaced: bool)
      requires Valid() && Rated(state.ctx, tx) && tx.hash !in all.Everything()
      requires isLocal == (local || tx.from in locals)
      modifies this`pending, this`queue, this`beats, this`locals, all
      ensures Valid()
      ensures ok <==> Accepts(state.ctx, Site(old(Contents(now)), tx), tx, config.priceBump)
      ensures Contents(now) == if ok then Placed(old(Contents(now)), tx, local) else old(Contents(now))
      ensures replaced <==> ok && tx.nonce in Site(old(Contents(now)), tx)
      ensures ok ==> Swapped(old(all.Everything()), all.Everything(), At(Site(old(Contents(now)), tx), tx.nonce), tx)
      ensures !local ==> locals == old(locals)
      ensures ok ==> Holds(ItemsAt(pending, tx.from), tx) || Holds(ItemsAt(queue, tx.from), tx)
    {
      hide Consistent, Swapped, Replaces, RatedAll, SameBut, NoneEmpty, TxLookup.Valid, TxLookup.Everything, PartsOf,
           PartAt, Swap, Exempted, Queued, Repriced, ItemsAt;
      PartAtItems(pending, tx.from);
      PartAtItems(queue, tx.from);
      if tx.nonce in ItemsAt(pending, tx.from) {
        ok := ReplacePending(tx, isLocal, now);
        return ok, ok;
      }
      ok, replaced := EnqueueNew(tx, isLocal, now);
      if ok && local && tx.from !in locals {
        var migrated := MarkLocal(tx.from, now);
      }
    }

    /** Queues a newcomer. */
    method EnqueueNew(tx: Transaction, isLocal: bool, now: nat) returns (ok: bool, replaced: bool)
      requires Valid() && Rated(state.ctx, tx) && tx.hash !in all.Everything() && tx.nonce !in ItemsAt(pending, tx.from)
      modifies this`queue, this`beats, all
      ensures Valid()
      ensures ok <==> Accepts(state.ctx, old(ItemsAt(queue, tx.from)), tx, config.priceBump)
      ensures Contents(now) == if ok then Queued(old(Contents(now)), tx, isLocal) else old(Contents(now))
      ensures replaced <==> ok && tx.nonce in old(ItemsAt(queue, tx.from))
      ensures ok ==> Swapped(old(all.Everything()), all.Everything(), At(old(ItemsAt(queue, tx.from)), tx.nonce), tx)
      ensures ok ==> Holds(ItemsAt(queue, tx.from), tx)
    {
      hide Consistent, Swapped, Replaces, RatedAll, SameBut, NoneEmpty, TxLookup.Valid, TxLookup.Everything, PartsOf,
           PartAt;
      PartAtItems(queue, tx.from);
      ok, replaced := EnqueueTx(tx, isLocal, true, now, NO_TRANSIT);
      if !ok {
        return false, false;
      }
      assert NO_TRANSIT.items - {tx.nonce} == map[];
      assert tx.nonce in queue[tx.from].items;
      StillNoneEmpty(old(queue), queue, tx.from);
      EmptyTransit(pending, queue, all.Everything(), tx.from, 0);
      PartsChanged(old(queue), queue, tx.from);
    }

    /** Exempts an account from the limits, with all it has in the pool. */
    method MarkLocal(a: Address, ghost now: nat) returns (migrated: nat)
      requires Valid()
      modifies this`locals, all
      ensures Valid() && Contents(now) == Exempted(old(Contents(now)), a) && all.Everything() == old(all.Everything())
      ensures migrated == |old(all.remotes)| - |all.remotes|
    {
      hide Consistent, RatedAll, NoneEmpty, PartsOf, SentBySome, SentByOthers, TxLookup.Valid, TxLookup.Everything;
      locals := locals + {a};
      migrated := all.RemoteToLocals(locals);
    }

    /** When the pool is full, drops what the price heaps advise, or refuses the newcomer. */
    method MakeRoom(tx: Transaction, isLocal: bool, advice: PriceAdvice, now: nat) returns (err: Option<PoolError>)
      requires Valid()
      modifies this`pending, this`queue, this`beats, this`changesSinceReorg, all, pendingNonces
      ensures Valid()
      ensures err == RoomError(Full(config, old(all.Everything()), tx), isLocal, advice, old(changesSinceReorg), config)
      ensures Contents(now)
              == if err.Some? then old(Contents(now))
                else RoomMade(config, old(Contents(now)), Submission(tx, None, advice))
      ensures all.Everything() == if err.Some? then old(all.Everything())
                                  else Found(config, old(all.Everything()), Submission(tx, None, advice))
      ensures forall a :: pendingNonces.Nonce(a) ==
                if err.Some? || !Full(config, old(all.Everything()), tx) then old(pendingNonces.Nonce(a))
                else RemovedAllNext(old(Contents(now)), advice.drop, a, old(pendingNonces.Nonce(a)))
    {
      hide Consistent, NoneEmpty, RatedAll, SlotSum, RemovedAll, RemovedAllNext, PartsOf;
      SlotsCounted(all);
      if all.slots + tx.Slots() <= config.globalSlots + config.globalQueue {
        return None;
      }
      if !isLocal && advice.underpriced {
        return Some(Underpriced);
      }
      if changesSinceReorg > config.globalSlots / 4 {
        return Some(PoolOverflow);
      }
      if !isLocal && !advice.success {
        return Some(PoolOverflow);
      }
      RemoveAll(advice.drop, now);
      changesSinceReorg := changesSinceReorg + |advice.drop|;
      return None;
    }

    method RemoveAll(drop: seq<Hash>, now: nat)
      requires Valid()
      modifies this`pending, this`queue, this`beats, all, pendingNonces
      ensures Valid() && all.Everything() == old(all.Everything()) - Members(drop)
      ensures Contents(now) == RemovedAll(old(Contents(now)), drop)
      ensures forall a ::
                pendingNonces.Nonce(a) == RemovedAllNext(old(Contents(now)), drop, a, old(pendingNonces.Nonce(a)))
    {
      hide Consistent, NoneEmpty, RatedAll, TxLookup.Valid, TxLookup.Everything, Removed, RemovedNext, RemovedAll,
           RemovedAllNext, PartsOf, ItemsAt, SameBut, RemovedFrom;
      RemovedNone(Contents(now));
      for i := 0 to |drop|
        invariant Valid() && Contents(now) == RemovedAll(old(Contents(now)), drop[..i])
        invariant forall a ::
                  pendingNonces.Nonce(a) == RemovedAllNext(old(Contents(now)), drop[..i], a,
                                                           old(pendingNonces.Nonce(a)))
        invariant all.Everything() == old(all.Everything()) - Members(drop[..i])
      {
        RemovedOneMore(old(Contents(now)), drop, i);
        assert Members(drop[..i + 1]) == Members(drop[..i]) + {drop[i]};
        RemoveTx(drop[i], now);
      }
      assert drop[..|drop|] == drop;
    }

    /** Lets `tx` replace the pending transaction at its nonce if it pays enough more. */
    method ReplacePending(tx: Transaction, isLocal: bool, now: nat) returns (ok: bool)
      requires Valid() && Rated(state.ctx, tx) && tx.hash !in all.Everything()
      requires tx.nonce in ItemsAt(pending, tx.from)
      modifies this`pending, this`beats, all
      ensures Valid()
      ensures ok <==> Replaces(state.ctx, old(ItemsAt(pending, tx.from))[tx.nonce], tx, config.priceBump)
      ensures !ok ==> pending == old(pending) && all.Everything() == old(all.Everything())
      ensures ok ==> SameBut(old(pending), pending, tx.from)
                     && ItemsAt(pending, tx.from) == old(ItemsAt(pending, tx.from))[tx.nonce := tx]
      ensures ok ==>
                Swapped(old(all.Everything()), all.Everything(), Some(old(ItemsAt(pending, tx.from))[tx.nonce]), tx)
      ensures Contents(now) == if ok then Repriced(old(Contents(now)), tx, isLocal) else old(Contents(now))
    {
      hide Consistent, Swapped, Stored, Replaces, RatedAll, SameBut, NoneEmpty, TxLookup.Valid, TxLookup.Everything,
           Repriced, PartsOf;
      var l := pending[tx.from];
      var o := TxLists.Add(state.ctx, l, tx, config.priceBump);
      if !o.inserted {
        return false;
      }
      StoredItems(state.ctx, l, tx);
      PendingIsKnown(pending, queue, all.Everything(), tx.from, tx.nonce);
      SwapLookup(tx, isLocal, true, o.replaced);
      PromoteStep(state.ctx, pending, queue, old(all.Everything()), NO_TRANSIT, tx, all.Everything());
      pending := pending[tx.from := o.list];
      assert tx.nonce in o.list.items && NO_TRANSIT.items - {tx.nonce} == map[];
      AfterCut(old(pending), pending, tx.from, o.list);
      EmptyTransit(pending, queue, all.Everything(), tx.from, 0);
      RepricedIsView(old(Contents(now)), old(pending), pending, tx, isLocal);
      beats := beats[tx.from := now];
      return true;
    }

    /** A cut of a queued list that sends nothing into transit. */
    method TrimQueue(a: Address, o: FilterOutcome)
      requires InTransit(NO_TRANSIT) && a in queue && CutOf(queue[a], o, a, false) && o.invalids == map[]
      modifies this`queue, all
      ensures InTransit(NO_TRANSIT) && queue == old(queue)[a := o.list]
      ensures Fewer(all.Sides(), old(all.Sides()))
    {
      hide Consistent, CutOf, Forgot, RatedAll, Fewer, TxLookup.Valid, TxLookup.Everything;
      CutQueue(a, o);
      EmptyTransit(pending, queue, all.Everything(), a, 0);
    }

    /** Drops the stale, the deprecated and the unpayable from an account's queue. */
    method DropUnpayable(a: Address)
      requires InTransit(NO_TRANSIT) && a in queue
      modifies this`queue, all
      ensures InTransit(NO_TRANSIT) && queue == old(queue)[a := Payable(state, a, old(queue)[a])]
      ensures Fewer(all.Sides(), old(all.Sides()))
    {
      hide Consistent, CutOf, ListFor, RatedAll, Filter, Fewer, TxLookup.Valid, TxLookup.Everything;
      ghost var z0 := all.Sides();
      ConsistentAt(pending, queue, all.Everything(), a);
      ForwardIsCut(queue[a], a, false, state.nonce(a));
      TrimQueue(a, ForwardCut(queue[a], state.nonce(a)));
      if state.dropGateway {
        ConsistentAt(pending, queue, all.Everything(), a);
        GatewayIsCut(queue[a], a, false);
        ghost var z1 := all.Sides();
        TrimQueue(a, GatewayCut(queue[a]));
        FewerTrans(all.Sides(), z1, z0);
      }
      ConsistentAt(pending, queue, all.Everything(), a);
      ghost var z2 := all.Sides();
      FilterIsCut(state.ctx, queue[a], LimitsFor(state, a, queue[a]), a, false);
      LooseFilter(state.ctx, queue[a], LimitsFor(state, a, queue[a]), a);
      TrimQueue(a, Filter(state.ctx, queue[a], LimitsFor(state, a, queue[a])));
      FewerTrans(all.Sides(), z2, z0);
    }

    /** Promotes everything in transit, lowest nonce first. */
    method PromoteAll(a: Address, items: Items, now: nat) returns (promoted: seq<Transaction>)
      requires InTransit(Transit(a, items)) && NoneEmpty(pending) && Disjoint(items, ItemsAt(pending, a))
      modifies this`pending, this`beats, all, pendingNonces
      ensures InTransit(NO_TRANSIT) && NoneEmpty(pending)
      ensures SameBut(old(pending), pending, a) && ItemsAt(pending, a) == old(ItemsAt(pending, a)) + items
      ensures all.Everything() == old(all.Everything()) && Fewer(all.Sides(), old(all.Sides()))
      ensures beats == Touched(old(beats), a, promoted, now)
      ensures IsListing(items, promoted)
      ensures pendingNonces.Nonce(a) == Advanced(old(pendingNonces.Nonce(a)), promoted)
      ensures forall b | b != a :: pendingNonces.Nonce(b) == old(pendingNonces.Nonce(b))
    {
      hide Consistent, RatedAll, SameBut, NoneEmpty, Fewer, Promoting, Advanced, Touched, TxLookup.Valid,
           TxLookup.Everything, Disjoint, ItemsAt;
      promoted := [];
      var todo := items;
      SameButRefl(pending, a);
      FewerRefl(all.Sides());
      PromotingNone(items);
      assert Touched(beats, a, [], now) == beats by { NotTouched(beats, a, now); }
      AdvancedMore(pendingNonces.Nonce(a), [], 0);
      while todo != map[]
        invariant InTransit(Transit(a, todo)) && NoneEmpty(pending)
        invariant SameBut(old(pending), pending, a) && ItemsAt(pending, a) + todo == old(ItemsAt(pending, a)) + items
        invariant Disjoint(todo, ItemsAt(pending, a))
        invariant all.Everything() == old(all.Everything()) && Fewer(all.Sides(), old(all.Sides()))
        invariant beats == Touched(old(beats), a, promoted, now)
        invariant Promoting(items, todo, promoted)
        invariant pendingNonces.Nonce(a) == Advanced(old(pendingNonces.Nonce(a)), promoted)
        invariant forall b | b != a :: pendingNonces.Nonce(b) == old(pendingNonces.Nonce(b))
        decreases |todo|
      {
        assert todo.Keys != {};
        var n := Min(todo.Keys);
        ghost var before, r := pending, all.Sides();
        DisjointLess(todo, ItemsAt(pending, a), n);
        PromoteOne(a, todo, n, now);
        FewerTrans(all.Sides(), r, old(all.Sides()));
        MoveMore(ItemsAt(before, a), todo, n);
        SameButTrans(old(pending), before, pending, a);
        PromotingMore(items, todo, promoted, n);
        TouchedMore(old(beats), a, promoted, todo[n], now);
        promoted := promoted + [todo[n]];
        AdvancedMore(old(pendingNonces.Nonce(a)), promoted, n);
        todo := todo - {n};
      }
      assert ItemsAt(pending, a) + map[] == ItemsAt(pending, a);
      PromotedAll(items, promoted);
      EmptyTransit(pending, queue, all.Everything(), a, 0);
    }

    method PromoteOne(a: Address, todo: Items, n: nat, now: nat)
      requires InTransit(Transit(a, todo)) && NoneEmpty(pending) && n in todo && n !in ItemsAt(pending, a)
      modifies this`pending, this`beats, all, pendingNonces
      ensures InTransit(Transit(a, todo - {n})) && NoneEmpty(pending) && todo[n].nonce == n
      ensures SameBut(old(pending), pending, a) && ItemsAt(pending, a) == old(ItemsAt(pending, a))[n := todo[n]]
      ensures all.Everything() == old(all.Everything()) && Fewer(all.Sides(), old(all.Sides()))
      ensures beats == old(beats)[a := now]
      ensures pendingNonces.Nonce(a) == Next(n)
      ensures forall b | b != a :: pendingNonces.Nonce(b) == old(pendingNonces.Nonce(b))
    {
      hide Consistent, RatedAll, SameBut, NoneEmpty, Swapped, Replaces, Fewer, TxLookup.Valid, TxLookup.Everything;
      TransitTx(pending, queue, all.Everything(), Transit(a, todo), n, state.ctx);
      PromoteReady(pending, queue, all.Everything(), Transit(a, todo), todo[n]);
      ConsistentKeyed(pending, queue, all.Everything(), Transit(a, todo));
      var promoted := PromoteTx(todo[n], now, Transit(a, todo));
      assert n in pending[a].items;
      StillNoneEmpty(old(pending), pending, a);
      ConsistentKeyed(pending, queue, all.Everything(), Transit(a, todo - {n}));
      SwappedForItself(old(all.Everything()), all.Everything(), todo[n]);
    }

    /** Promotes an account's executable transactions and trims what stays queued. */
    method PromoteAccount(a: Address, now: nat) returns (promoted: seq<Transaction>)
      requires Valid() && a in queue
      modifies this`pending, this`queue, this`beats, all, pendingNonces
      ensures Valid()
      ensures SameBut(old(pending), pending, a) && SameBut(old(queue), queue, a)
      ensures Promoted(state, a, old(queue)[a], old(pendingNonces.Nonce(a)), a in locals, config.accountQueue,
                       old(ItemsAt(pending, a)), ItemsAt(pending, a), ItemsAt(queue, a))
      ensures IsListing(PlanPromotion(state, a, old(queue)[a], old(pendingNonces.Nonce(a)), a in locals,
                                      config.accountQueue).ready, promoted)
      ensures pendingNonces.Nonce(a) == Advanced(old(pendingNonces.Nonce(a)), promoted)
      ensures forall b | b != a :: pendingNonces.Nonce(b) == old(pendingNonces.Nonce(b))
      ensures Fewer(all.Sides(), old(all.Sides()))
      ensures BeatAt(beats, a) == PromotedBeat(state, a, old(queue)[a], old(pendingNonces.Nonce(a)), a in locals,
                                               config.accountQueue, BeatAt(old(beats), a), now)
      ensures forall b | b != a :: BeatAt(beats, b) == BeatAt(old(beats), b)
    {
      hide Consistent, CutOf, ListFor, RatedAll, SameBut, NoneEmpty, Filter, Payable, ReadyPart, LowestPart, Forgot;
      hide Fewer, IsListing, Advanced, BeatAt, PromotedBeat, Touched, TxLookup.Valid, TxLookup.Everything;
      promoted := PromoteReadies(a, now);
      ghost var r, b, mid := all.Sides(), beats, queue;
      PutList(old(queue), a, queue[a]);
      OthersNotEmpty(old(queue), queue, a);
      TrimRest(a);
      SameButTrans(old(queue), mid, queue, a);
      FewerTrans(all.Sides(), r, old(all.Sides()));
      PromotedBeatIs(state, a, old(queue)[a], old(pendingNonces.Nonce(a)), a in locals, config.accountQueue, old(beats),
                     b, beats, promoted, now);
    }

    /** Caps what stays queued and forgets an empty queue. */
    method TrimRest(a: Address)
      requires InTransit(NO_TRANSIT) && NoneEmpty(pending) && a in queue && NoneEmpty(queue - {a})
      modifies this`queue, this`beats, all
      ensures Valid() && SameBut(old(queue), queue, a) && Fewer(all.Sides(), old(all.Sides()))
      ensures ItemsAt(queue, a) == if a in locals then old(queue)[a].items
                                   else LowestPart(old(queue)[a].items, config.accountQueue)
      ensures beats == Emptied(old(beats), a, ItemsAt(queue, a))
    {
      hide Consistent, CutOf, ListFor, RatedAll, SameBut, LowestPart, Forgot, Fewer, TxLookup.Valid,
           TxLookup.Everything;
      FewerRefl(all.Sides());
      if a !in locals {
        ConsistentAt(pending, queue, all.Everything(), a);
        CapIsCut(queue[a], a, false, config.accountQueue);
        TrimQueue(a, CapCut(queue[a], config.accountQueue));
      }
      ghost var rest := queue[a];
      assert queue == old(queue)[a := rest];
      if queue[a].items == map[] {
        DropEmptyQueue(pending, queue, all.Everything(), NO_TRANSIT, a);
        queue := queue - {a};
        beats := beats - {a};
      }
      AfterCut(old(queue), queue, a, rest);
      NoneEmptyAfter(old(queue), queue, a);
    }

    /** Drops what cannot be paid and moves the executable run from the queue to the pending list. */
    method PromoteReadies(a: Address, now: nat) returns (promoted: seq<Transaction>)
      requires Valid() && a in queue
      modifies this`pending, this`queue, this`beats, all, pendingNonces
      ensures InTransit(NO_TRANSIT) && NoneEmpty(pending) && SameBut(old(pending), pending, a)
      ensures var r := ReadyCut(Payable(state, a, old(queue)[a]), old(pendingNonces.Nonce(a)));
              && queue == old(queue)[a := r.list]
              && ItemsAt(pending, a) == old(ItemsAt(pending, a)) + r.invalids
              && IsListing(r.invalids, promoted)
      ensures beats == Touched(old(beats), a, promoted, now)
      ensures Fewer(all.Sides(), old(all.Sides()))
      ensures pendingNonces.Nonce(a) == Advanced(old(pendingNonces.Nonce(a)), promoted)
      ensures forall b | b != a :: pendingNonces.Nonce(b) == old(pendingNonces.Nonce(b))
    {
      hide Consistent, CutOf, ListFor, RatedAll, SameBut, NoneEmpty, Filter, Payable, ReadyPart, Forgot;
      hide Fewer, IsListing, Advanced, TxLookup.Valid, TxLookup.Everything;
      DropUnpayable(a);
      ghost var r1 := all.Sides();
      var next := pendingNonces.Get(a);
      ConsistentAt(pending, queue, all.Everything(), a);
      var r := ReadyCut(queue[a], next);
      ReadyIsCut(queue[a], a, false, next);
      ReadyDisjoint(ItemsAt(pending, a), queue[a], next);
      CutQueue(a, r);
      FewerTrans(all.Sides(), r1, old(all.Sides()));
      ghost var r2 := all.Sides();
      promoted := PromoteAll(a, r.invalids, now);
      FewerTrans(all.Sides(), r2, old(all.Sides()));
    }

    /** Promotes what has become executable in the given accounts; each account is treated on its own. */
    method PromoteExecutables(accounts: set<Address>, now: nat)
      returns (promoted: seq<Transaction>, ghost nonces: map<Address, nat>)
      requires Valid()
      modifies this`pending, this`queue, this`beats, all, pendingNonces
      ensures Valid() && nonces == map a | a in old(queue) :: old(pendingNonces.Nonce(a))
      ensures Fewer(all.Sides(), old(all.Sides()))
      ensures PromotedStage(state, locals, config.accountQueue, accounts, nonces,
                            Stage(old(pending), old(queue), old(beats), now), Stage(pending, queue, beats, now))
      ensures forall tx ::
                tx in promoted <==> ReadyInStage(state, locals, config.accountQueue, accounts, nonces,
                                                 Stage(old(pending), old(queue), old(beats), now), tx)
    {
      hide Consistent, RatedAll, NoneEmpty, SameBut, PlanPromotion, TxLookup.Valid, TxLookup.Everything, Promoted,
           PromotedStage, PromotingStage, PromotedBeat, BecomesReady, ReadyInStage, IsListing, ItemsAt, Fewer, Advanced,
           BeatAt;
      FewerRefl(all.Sides());
      ghost var s0 := Stage(pending, queue, beats, now);
      nonces := map a | a in queue :: pendingNonces.Nonce(a);
      promoted := [];
      var todo := accounts;
      NonePromoted(state, locals, config.accountQueue, accounts, nonces, s0);
      while todo != {}
        invariant Valid() && Fewer(all.Sides(), old(all.Sides()))
        invariant forall a | a in todo && a in nonces :: pendingNonces.Nonce(a) == nonces[a]
        invariant PromotingStage(state, locals, config.accountQueue, accounts, todo, nonces, s0,
                                 Stage(pending, queue, beats, now), promoted)
        decreases |todo|
      {
        var a :| a in todo;
        ghost var s := Stage(pending, queue, beats, now);
        PromotingAt(state, locals, config.accountQueue, accounts, todo, nonces, s0, s, promoted, a);
        if a in queue {
          ConsistentAt(pending, queue, all.Everything(), a);
          ghost var r := all.Sides();
          var txs := PromoteAccount(a, now);
          FewerTrans(all.Sides(), r, old(all.Sides()));
          ReadyMembers(state, a, s0.queue[a], nonces[a], a in locals, config.accountQueue, txs);
          OneMorePromoted(state, locals, config.accountQueue, accounts, todo, nonces, s0, s,
                          Stage(pending, queue, beats, now), promoted, txs, a);
          promoted := promoted + txs;
        } else {
          OneMoreIdle(state, locals, config.accountQueue, accounts, todo, nonces, s0, s, promoted, a);
        }
        todo := todo - {a};
      }
      AllPromoted(state, locals, config.accountQueue, accounts, nonces, s0, Stage(pending, queue, beats, now),
                  promoted);
    }

    /** Drops an account's stale and unpayable pending transactions and postpones what they invalidate; a list with
        a gap in front is postponed whole. */
    method DemoteAccount(a: Address, now: nat)
      requires Valid() && a in pending
      modifies this`pending, this`queue, this`beats, all
      ensures Valid()
      ensures SameBut(old(pending), pending, a) && SameBut(old(queue), queue, a)
      ensures Demoted(state, a, old(pending)[a], old(ItemsAt(queue, a)), ItemsAt(pending, a), ItemsAt(queue, a))
      ensures Fewer(all.Sides(), old(all.Sides()))
      ensures beats == Requeued(old(beats), a, PlanDemotion(state, a, old(pending)[a]).requeued, now)
    {
      hide Consistent, CutOf, ListFor, RatedAll, SameBut, NoneEmpty, Filter, Forgot, Fewer, Requeued, TxLookup.Valid,
           TxLookup.Everything;
      var nonce := state.nonce(a);
      var l1 := ForwardCut(pending[a], nonce).list;
      DropStale(a);
      ghost var r1 := all.Sides();
      FilterIsCut(state.ctx, l1, LimitsFor(state, a, l1), a, true);
      CutAndPostpone(a, Filter(state.ctx, l1, LimitsFor(state, a, l1)), now);
      FewerTrans(all.Sides(), r1, old(all.Sides()));
      ghost var r2, o := all.Sides(), Filter(state.ctx, l1, LimitsFor(state, a, l1));
      if pending[a].items != map[] && nonce !in pending[a].items {
        PostponeAll(a, o.invalids, old(queue), old(beats), now);
        FewerTrans(all.Sides(), r2, old(all.Sides()));
      }
      PutList(old(pending), a, pending[a]);
      OthersNotEmpty(old(pending), pending, a);
      ghost var mid := pending;
      ForgetEmpty(a);
      SameButTrans(old(pending), mid, pending, a);
    }

    /** Forgets an account's pending list if it is empty. */
    method ForgetEmpty(a: Address)
      requires InTransit(NO_TRANSIT) && NoneEmpty(queue) && a in pending && NoneEmpty(pending - {a})
      modifies this`pending
      ensures Valid() && SameBut(old(pending), pending, a) && ItemsAt(pending, a) == old(pending)[a].items
    {
      hide Consistent, RatedAll, SameBut, NoneEmpty, TxLookup.Valid, TxLookup.Everything;
      if pending[a].items == map[] {
        DropEmptyPending(pending, queue, all.Everything(), NO_TRANSIT, a);
        pending := pending - {a};
      }
      AfterCut(old(pending), pending, a, old(pending)[a]);
      NoneEmptyAfter(old(pending), pending, a);
    }

    method DropStale(a: Address)
      requires InTransit(NO_TRANSIT) && a in pending
      modifies this`pending, all
      ensures InTransit(NO_TRANSIT) && pending == old(pending)[a := ForwardCut(old(pending)[a], state.nonce(a)).list]
      ensures ListFor(pending[a], a, true)
      ensures Fewer(all.Sides(), old(all.Sides()))
    {
      hide Consistent, CutOf, ListFor, RatedAll, Forgot, Fewer, TxLookup.Valid, TxLookup.Everything;
      ConsistentAt(pending, queue, all.Everything(), a);
      ForwardIsCut(pending[a], a, true, state.nonce(a));
      CutPending(a, ForwardCut(pending[a], state.nonce(a)));
      EmptyTransit(pending, queue, all.Everything(), a, 0);
      ConsistentAt(pending, queue, all.Everything(), a);
    }

    /** Postpones what is left of a pending list, after `invalids` of the account. */
    method PostponeAll(a: Address, ghost invalids: Items, ghost q0: Lists, ghost b0: Beats, now: nat)
      requires InTransit(NO_TRANSIT) && NoneEmpty(queue) && a in pending && SameBut(q0, queue, a)
      requires ItemsAt(queue, a) == ItemsAt(q0, a) + invalids && beats == Requeued(b0, a, invalids, now)
      modifies this`pending, this`queue, this`beats, all
      ensures InTransit(NO_TRANSIT) && NoneEmpty(queue) && SameBut(q0, queue, a)
      ensures pending == old(pending)[a := GapCut(old(pending)[a]).list]
      ensures ItemsAt(queue, a) == ItemsAt(q0, a) + (invalids + old(pending)[a].items)
      ensures beats == Requeued(b0, a, invalids + old(pending)[a].items, now)
      ensures Fewer(all.Sides(), old(all.Sides()))
    {
      hide Consistent, CutOf, RatedAll, SameBut, NoneEmpty, Fewer, Requeued, TxLookup.Valid, TxLookup.Everything,
           ItemsAt;
      ghost var items := pending[a].items;
      ConsistentAt(pending, queue, all.Everything(), a);
      GapIsCut(pending[a], a, true);
      CutAndPostpone(a, GapCut(pending[a]), now);
      SameButTrans(q0, old(queue), queue, a);
      RequeuedTwice(b0, a, invalids, items, now);
      PlusAssoc(ItemsAt(q0, a), invalids, items);
    }

    /** Cuts a pending list, forgets what was removed and postpones what was invalidated. */
    method CutAndPostpone(a: Address, o: FilterOutcome, now: nat)
      requires InTransit(NO_TRANSIT) && NoneEmpty(queue) && a in pending && CutOf(pending[a], o, a, true)
      modifies this`pending, this`queue, this`beats, all
      ensures InTransit(NO_TRANSIT) && NoneEmpty(queue)
      ensures pending == old(pending)[a := o.list]
      ensures SameBut(old(queue), queue, a) && ItemsAt(queue, a) == old(ItemsAt(queue, a)) + o.invalids
      ensures beats == Requeued(old(beats), a, o.invalids, now)
      ensures Fewer(all.Sides(), old(all.Sides()))
    {
      CutDisjoint(pending[a], o, a);
      hide Consistent, CutOf, RatedAll, SameBut, NoneEmpty, Forgot, Fewer, TxLookup.Valid, TxLookup.Everything;
      CutPending(a, o);
      EnqueueAll(a, o.invalids, now);
    }

    /** Demotes what a new head has made unexecutable, account by account. */
    method DemoteUnexecutables(now: nat)
      requires Valid()
      modifies this`pending, this`queue, this`beats, all
      ensures Valid() && Fewer(all.Sides(), old(all.Sides()))
      ensures DemotedStage(state, Stage(old(pending), old(queue), old(beats), now), Stage(pending, queue, beats, now))
    {
      hide Consistent, RatedAll, NoneEmpty, SameBut, Demoted, DemotedStage, Demoting, Fewer, TxLookup.Valid,
           TxLookup.Everything, ItemsAt, Requeued, PlanDemotion;
      FewerRefl(all.Sides());
      ghost var s0 := Stage(pending, queue, beats, now);
      var todo := pending.Keys;
      DemotingNone(state, s0);
      while todo != {}
        invariant Valid() && Fewer(all.Sides(), old(all.Sides()))
        invariant Demoting(state, s0, Stage(pending, queue, beats, now), todo)
        decreases |todo|
      {
        var a :| a in todo;
        ghost var s, r := Stage(pending, queue, beats, now), all.Sides();
        DemotingAt(state, s0, s, todo, a);
        DemoteAccount(a, now);
        FewerTrans(all.Sides(), r, old(all.Sides()));
        DemotingMore(state, s0, s, Stage(pending, queue, beats, now), todo, a);
        todo := todo - {a};
      }
      DemotingAll(state, s0, Stage(pending, queue, beats, now));
    }

    /** Drops an account's highest pending nonce and makes that nonce available again. */
    method CutOne(a: Address)
      requires Valid() && a in pending && Len(pending, a) >= 2
      modifies this`pending, all, pendingNonces
      ensures Valid()
      ensures SameBut(old(pending), pending, a) && a in pending
      ensures ItemsAt(pending, a) == LowestPart(old(ItemsAt(pending, a)), |old(ItemsAt(pending, a))| - 1)
      ensures LoweredTo(old(pendingNonces.Nonce(a)),
                        HighestPart(old(ItemsAt(pending, a)), |old(ItemsAt(pending, a))| - 1), pendingNonces.Nonce(a))
      ensures forall b | b != a :: pendingNonces.Nonce(b) == old(pendingNonces.Nonce(b))
      ensures Fewer(all.Sides(), old(all.Sides()))
    {
      hide Consistent, CutOf, ListFor, RatedAll, SameBut, NoneEmpty, Forgot, Fewer, LowestPart, HighestPart;
      hide TxLookup.Valid, TxLookup.Everything;
      var k := |pending[a].items| - 1;
      var o := CapCut(pending[a], k);
      ConsistentAt(pending, queue, all.Everything(), a);
      CapIsCut(pending[a], a, true, k);
      LowestOfLowest(pending[a].items, k, k);
      CutPending(a, o);
      EmptyTransit(pending, queue, all.Everything(), a, 0);
      AfterCut(old(pending), pending, a, o.list);
      LowerNonce(a, o.removed);
    }

    method LowerNonce(a: Address, dropped: Items)
      modifies pendingNonces
      ensures LoweredTo(old(pendingNonces.Nonce(a)), dropped, pendingNonces.Nonce(a))
      ensures forall b | b != a :: pendingNonces.Nonce(b) == old(pendingNonces.Nonce(b))
    {
      var todo := dropped.Keys;
      while todo != {}
        invariant todo <= dropped.Keys && forall n | n in dropped && n !in todo :: pendingNonces.Nonce(a) <= n
        invariant pendingNonces.Nonce(a) <= old(pendingNonces.Nonce(a))
        invariant pendingNonces.Nonce(a) == old(pendingNonces.Nonce(a)) || pendingNonces.Nonce(a) in dropped
        invariant forall b | b != a :: pendingNonces.Nonce(b) == old(pendingNonces.Nonce(b))
        decreases |todo|
      {
        var n :| n in todo;
        pendingNonces.SetIfLower(a, n);
        todo := todo - {n};
      }
    }

    /** One round: every given account loses its highest nonce, and the running total follows. */
    method CutRound(addrs: seq<Address>, total: nat) returns (left: nat)
      requires Valid() && total == Total(pending) && Distinct(addrs)
      requires forall i | 0 <= i < |addrs| :: addrs[i] in pending && Len(pending, addrs[i]) >= 2
      modifies this`pending, all, pendingNonces
      ensures Valid() && RoundCut(old(pending), pending, addrs)
      ensures left == Total(pending) && left == total - |addrs|
      ensures Fewer(all.Sides(), old(all.Sides()))
    {
      hide Consistent, RatedAll, SameBut, NoneEmpty, LowestPart, HighestPart, RoundCut, LoweredTo, Total, ItemsAt;
      hide Fewer, TxLookup.Valid, TxLookup.Everything;
      left := total;
      FewerRefl(all.Sides());
      RoundCutNone(pending);
      for i := 0 to |addrs|
        invariant Valid() && RoundCut(old(pending), pending, addrs[..i])
        invariant forall j | i <= j < |addrs| :: addrs[j] in pending && Len(pending, addrs[j]) >= 2
        invariant left == Total(pending) && left == total - i && Fewer(all.Sides(), old(all.Sides()))
      {
        ghost var before, r := pending, all.Sides();
        var a := addrs[i];
        CutOne(a);
        FewerTrans(all.Sides(), r, old(all.Sides()));
        RoundCutMore(old(pending), before, pending, addrs, i);
        left := left - 1;
      }
      assert addrs[..|addrs|] == addrs;
    }

    /** Brings the pending total down to its limit at the expense of the remote accounts with the most pending
        transactions, largest first. */
    method TruncatePending()
      requires Valid() && config.accountSlots >= 1
      modifies this`pending, all, pendingNonces
      ensures Valid() && Fewer(all.Sides(), old(all.Sides()))
      ensures FairlyTruncated(old(pending), pending, locals, config.accountSlots, config.globalSlots)
    {
      hide Consistent, RatedAll, NoneEmpty, Cutting, FairlyTruncated, Total, Fewer, TxLookup.Valid, TxLookup.Everything;
      FewerRefl(all.Sides());
      var total := Count(pending);
      if total <= config.globalSlots {
        NothingToTruncate(pending, locals, config.accountSlots, config.globalSlots);
        return;
      }
      var spam := map a | a in pending && a !in locals && Len(pending, a) > config.accountSlots :: Len(pending, a);
      var offenders: seq<Address> := [];
      ghost var k: nat, e: nat := 0, 0;
      StartCutting(pending, locals, config.accountSlots, config.globalSlots, total, spam);
      while total > config.globalSlots && spam != map[]
        invariant Valid() && total == Total(pending) && Fewer(all.Sides(), old(all.Sides()))
        invariant Cutting(old(pending), pending, locals, config.accountSlots, config.globalSlots, total, offenders,
                          spam, k, e)
        invariant total > config.globalSlots ==> k == |offenders|
        decreases |spam|
      {
        ghost var r := all.Sides();
        offenders, spam, total, k, e := NextOffender(offenders, spam, total, old(pending), e);
        FewerTrans(all.Sides(), r, old(all.Sides()));
      }
      if total > config.globalSlots && |offenders| > 0 {
        ghost var r := all.Sides();
        total, e := CutToGuarantee(offenders, total, old(pending), e);
        FewerTrans(all.Sides(), r, old(all.Sides()));
      }
      CuttingIsFair(old(pending), pending, locals, config.accountSlots, config.globalSlots, offenders, spam, k, e);
    }

    /** Takes the largest spammer as the next offender and levels the earlier offenders with it. */
    method NextOffender(offenders: seq<Address>, spam: map<Address, nat>, total: nat, ghost p0: Lists, ghost e: nat)
      returns (offenders': seq<Address>, spam': map<Address, nat>, left: nat, ghost k': nat, ghost e': nat)
      requires Valid() && total == Total(pending) && total > config.globalSlots && spam != map[]
      requires config.accountSlots >= 1
      requires Cutting(p0, pending, locals, config.accountSlots, config.globalSlots, total, offenders, spam,
                       |offenders|, e)
      modifies this`pending, all, pendingNonces
      ensures Valid() && left == Total(pending) && |spam'| < |spam| && Fewer(all.Sides(), old(all.Sides()))
      ensures Cutting(p0, pending, locals, config.accountSlots, config.globalSlots, left, offenders', spam', k', e')
      ensures left > config.globalSlots ==> k' == |offenders'|
    {
      hide Consistent, RatedAll, NoneEmpty, Cutting, Total, Fewer, TxLookup.Valid, TxLookup.Everything;
      FewerRefl(all.Sides());
      MaxExists(spam);
      var offender :| offender in spam && forall b | b in spam :: spam[b] <= spam[offender];
      TakeOffender(p0, pending, locals, config.accountSlots, config.globalSlots, total, offenders, spam, e, offender);
      offenders' := offenders + [offender];
      spam' := spam - {offender};
      assert spam'.Keys == spam.Keys - {offender};
      left, k', e' := total, |offenders|, e;
      if |offenders'| > 1 {
        left, e' := Equalize(offenders', left, p0, spam', e');
      }
      if left > config.globalSlots {
        LevelWithNewest(p0, pending, locals, config.accountSlots, config.globalSlots, left, offenders', spam', k', e');
        k', e' := |offenders'|, Len(p0, offender);
      }
    }

    /** Cuts all offenders but the newest, round by round, down to the newest one's length or until the limit. */
    method Equalize(offenders: seq<Address>, total: nat, ghost p0: Lists, ghost spam: map<Address, nat>, ghost e: nat)
      returns (left: nat, ghost e': nat)
      requires Valid() && total == Total(pending) && |offenders| > 1 && total > config.globalSlots
      requires config.accountSlots >= 1
      requires Cutting(p0, pending, locals, config.accountSlots, config.globalSlots, total, offenders, spam,
                       |offenders| - 1, e)
      modifies this`pending, all, pendingNonces
      ensures Valid() && left == Total(pending) && Fewer(all.Sides(), old(all.Sides()))
      ensures Cutting(p0, pending, locals, config.accountSlots, config.globalSlots, left, offenders, spam,
                      |offenders| - 1, e')
      ensures left > config.globalSlots ==> e' <= Len(p0, offenders[|offenders| - 1])
    {
      hide Consistent, RatedAll, NoneEmpty, Cutting, RoundCut, Total, Fewer, TxLookup.Valid, TxLookup.Everything;
      FewerRefl(all.Sides());
      left, e' := total, e;
      var k := |offenders| - 1;
      NewestUncut(p0, pending, locals, config.accountSlots, config.globalSlots, left, offenders, spam, e');
      var threshold := Len(pending, offenders[k]);
      while left > config.globalSlots && Len(pending, offenders[k - 1]) > threshold
        invariant Valid() && left == Total(pending) && Fewer(all.Sides(), old(all.Sides()))
        invariant Cutting(p0, pending, locals, config.accountSlots, config.globalSlots, left, offenders, spam, k, e')
        invariant Len(pending, offenders[k - 1]) == e'
        decreases left
      {
        CutReady(p0, pending, locals, config.accountSlots, config.globalSlots, left, offenders, spam, k, e');
        ghost var before, r := pending, all.Sides();
        left := CutRound(offenders[..k], left);
        FewerTrans(all.Sides(), r, old(all.Sides()));
        RoundKeepsLevel(p0, before, pending, locals, config.accountSlots, config.globalSlots, left + k, offenders, spam,
                        k, e');
        e' := e' - 1;
        LevelOf(p0, pending, locals, config.accountSlots, config.globalSlots, left, offenders, spam, k, e');
      }
    }

    /** Cuts all offenders, round by round, down to the guaranteed slots or until the limit. */
    method CutToGuarantee(offenders: seq<Address>, total: nat, ghost p0: Lists, ghost e: nat)
      returns (left: nat, ghost e': nat)
      requires Valid() && total == Total(pending) && |offenders| > 0 && total > config.globalSlots
      requires config.accountSlots >= 1
      requires Cutting(p0, pending, locals, config.accountSlots, config.globalSlots, total, offenders, map[],
                       |offenders|, e)
      modifies this`pending, all, pendingNonces
      ensures Valid() && left == Total(pending) && Fewer(all.Sides(), old(all.Sides()))
      ensures Cutting(p0, pending, locals, config.accountSlots, config.globalSlots, left, offenders, map[], |offenders|,
                      e')
      ensures left > config.globalSlots ==> e' <= config.accountSlots
    {
      hide Consistent, RatedAll, NoneEmpty, Cutting, RoundCut, Total, Fewer, TxLookup.Valid, TxLookup.Everything;
      FewerRefl(all.Sides());
      left, e' := total, e;
      var k := |offenders|;
      LevelOf(p0, pending, locals, config.accountSlots, config.globalSlots, left, offenders, map[], k, e');
      while left > config.globalSlots && Len(pending, offenders[k - 1]) > config.accountSlots
        invariant Valid() && left == Total(pending) && Fewer(all.Sides(), old(all.Sides()))
        invariant Cutting(p0, pending, locals, config.accountSlots, config.globalSlots, left, offenders, map[], k, e')
        invariant Len(pending, offenders[k - 1]) == e'
        decreases left
      {
        CutReady(p0, pending, locals, config.accountSlots, config.globalSlots, left, offenders, map[], k, e');
        ghost var before, r := pending, all.Sides();
        assert offenders[..k] == offenders;
        left := CutRound(offenders, left);
        FewerTrans(all.Sides(), r, old(all.Sides()));
        RoundKeepsLevel(p0, before, pending, locals, config.accountSlots, config.globalSlots, left + k, offenders,
                        map[], k, e');
        e' := e' - 1;
        LevelOf(p0, pending, locals, config.accountSlots, config.globalSlots, left, offenders, map[], k, e');
      }
    }

    /** Brings the queued total down to its limit: remote accounts are emptied in turn, latest heartbeat first, and
        the last one loses only its highest nonces. */
    method TruncateQueue(now: nat)
      requires Valid()
      modifies this`pending, this`queue, this`beats, all, pendingNonces
      ensures Valid() && pending == old(pending) && Fewer(all.Sides(), old(all.Sides()))
      ensures QueueTruncated(old(queue), queue, locals, config.globalQueue, old(beats))
    {
      hide Consistent, RatedAll, NoneEmpty, Total, QueueTruncated, QueueCutting, Fewer, TxLookup.Valid,
           TxLookup.Everything;
      FewerRefl(all.Sides());
      var queued := Count(queue);
      if queued <= config.globalQueue {
        QueueUntouched(queue, locals, config.globalQueue, beats);
        return;
      }
      var addresses := RemotesByBeat();
      var drop: nat := queued - config.globalQueue;
      QueueStart(queue, locals, config.globalQueue, beats, addresses);
      while drop > 0 && |addresses| > 0
        invariant Valid() && pending == old(pending) && Fewer(all.Sides(), old(all.Sides()))
        invariant QueueCutting(old(queue), queue, locals, config.globalQueue, old(beats), addresses, drop)
        decreases |addresses|
      {
        var a := addresses[|addresses| - 1];
        QueueNext(old(queue), queue, locals, config.globalQueue, old(beats), addresses, drop);
        ghost var before, r := queue, all.Sides();
        var size := Len(queue, a);
        var n := if size <= drop then size else drop;
        RemoveHighest(a, n, now);
        FewerTrans(all.Sides(), r, old(all.Sides()));
        QueueStep(old(queue), before, queue, locals, config.globalQueue, old(beats), addresses, drop, n);
        addresses := addresses[..|addresses| - 1];
        drop := drop - n;
      }
      QueueDone(old(queue), queue, locals, config.globalQueue, old(beats), addresses, drop);
    }

    /** The remote accounts with queued transactions, oldest heartbeat first. */
    method RemotesByBeat() returns (addresses: seq<Address>)
      ensures multiset(addresses) == multiset(set a | a in queue && a !in locals)
      ensures forall i, j | 0 <= i < j < |addresses| :: BeatOf(beats, addresses[i]) <= BeatOf(beats, addresses[j])
    {
      var some: seq<Address> := [];
      var todo := set a | a in queue && a !in locals;
      ghost var everyone := todo;
      while todo != {}
        invariant todo <= everyone && multiset(some) == multiset(everyone - todo)
        decreases |todo|
      {
        var a :| a in todo;
        some := some + [a];
        assert everyone - (todo - {a}) == (everyone - todo) + {a};
        todo := todo - {a};
      }
      assert everyone - {} == everyone;
      var b := beats;
      addresses := SortedMap.SortBy(some, (a: Address) => BeatOf(b, a));
    }

    /** Removes an account's `n` highest queued nonces, one by one. */
    method RemoveHighest(a: Address, n: nat, now: nat)
      requires Valid() && n <= Len(queue, a)
      modifies this`pending, this`queue, this`beats, all, pendingNonces
      ensures Valid() && pending == old(pending) && Fewer(all.Sides(), old(all.Sides()))
      ensures SameBut(old(queue), queue, a)
      ensures ItemsAt(queue, a) == LowestPart(old(ItemsAt(queue, a)), old(Len(queue, a)) - n)
    {
      hide Consistent, RatedAll, NoneEmpty, SameBut, LowestPart, Fewer, TxLookup.Valid, TxLookup.Everything;
      FewerRefl(all.Sides());
      WholeIsLowest(ItemsAt(queue, a));
      SameButRefl(queue, a);
      for i := 0 to n
        invariant Valid() && pending == old(pending) && SameBut(old(queue), queue, a)
        invariant Fewer(all.Sides(), old(all.Sides()))
        invariant ItemsAt(queue, a) == LowestPart(old(ItemsAt(queue, a)), old(Len(queue, a)) - i)
        invariant Len(queue, a) == old(Len(queue, a)) - i
      {
        LowestOfLowest(old(ItemsAt(queue, a)), old(Len(queue, a)) - i, old(Len(queue, a)) - i - 1);
        ghost var before, r := queue, all.Sides();
        RemoveTop(a, now);
        FewerTrans(all.Sides(), r, old(all.Sides()));
        SameButTrans(old(queue), before, queue, a);
      }
    }

    method RemoveTop(a: Address, now: nat)
      requires Valid() && Len(queue, a) > 0
      modifies this`pending, this`queue, this`beats, all, pendingNonces
      ensures Valid() && pending == old(pending) && SameBut(old(queue), queue, a)
      ensures Fewer(all.Sides(), old(all.Sides()))
      ensures ItemsAt(queue, a) == LowestPart(old(ItemsAt(queue, a)), old(Len(queue, a)) - 1)
      ensures Len(queue, a) == old(Len(queue, a)) - 1
    {
      hide Consistent, RatedAll, NoneEmpty, SameBut, LowestPart, TxLookup.Valid, TxLookup.Everything;
      var m := ItemsAt(queue, a);
      HighestExists(m);
      var top :| top in m && forall y | y in m :: y <= top;
      QueuedIsKnown(pending, queue, all.Everything(), a, top);
      WithoutHighest(m, top);
      FewerLess(all.Sides(), m[top].hash);
      RemoveTx(m[top].hash, now);
    }

    /** Adds a batch; `dirty` are the senders whose queues may now hold something executable. */
    method AddAll(batch: seq<Submission>, local: bool, now: nat)
      returns (errs: seq<Option<PoolError>>, dirty: set<Address>, replaced: seq<bool>, ghost views: seq<View>)
      requires Valid() && forall i | 0 <= i < |batch| :: batch[i].RatedIfValid(state.ctx)
      modifies this`pending, this`queue, this`beats, this`locals, this`changesSinceReorg, all, pendingNonces
      ensures Valid() && AddedInTurn(config, state.ctx, views, batch, local, errs, replaced)
      ensures |views| == |batch| + 1 && views[0] == old(Contents(now)) && views[|batch|] == Contents(now)
      ensures forall a ::
                pendingNonces.Nonce(a) == NextInTurn(config, views, batch, local, |batch|, a,
                                                     old(pendingNonces.Nonce(a)))
      ensures forall i | 0 <= i < |batch| ::
                AddStep(config, views[i].Everything(), views[i + 1].Everything(), batch[i], errs[i], replaced[i])
      ensures dirty == set i | 0 <= i < |batch| && errs[i].None? && !replaced[i] :: batch[i].tx.from
      ensures !local ==> locals == old(locals)
    {
      hide Consistent, RatedAll, NoneEmpty, TxLookup.Valid, TxLookup.Everything, AddStep, SlotSum, Accepts, Added,
           AddedNext, AddedInTurn, PartsOf, NextInTurn, Beating;
      errs, dirty, replaced, views := [], {}, [], [Contents(now)];
      NoneAdded(config, state.ctx, Contents(now), batch, local);
      for i := 0 to |batch|
        invariant Valid() && |errs| == |replaced| == i && |views| == i + 1
        invariant views[0] == old(Contents(now)) && views[i] == Contents(now)
        invariant AddedInTurn(config, state.ctx, views, batch[..i], local, errs, replaced)
        invariant forall a ::
                  pendingNonces.Nonce(a) == NextInTurn(config, views, batch, local, i, a, old(pendingNonces.Nonce(a)))
        invariant forall k | 0 <= k < i ::
                    AddStep(config, views[k].Everything(), views[k + 1].Everything(), batch[k], errs[k], replaced[k])
        invariant dirty == set k | 0 <= k < i && errs[k].None? && !replaced[k] :: batch[k].tx.from
        invariant !local ==> locals == old(locals)
      {
        KnownContents(now);
        var r, err := Add(batch[i].tx, local, batch[i].invalid, batch[i].advice, now);
        KnownContents(now);
        OneMoreAdded(config, state.ctx, views, batch, local, errs, replaced, Outcome(Contents(now), err, r));
        NextOneMore(config, views, batch, local, i, Contents(now));
        errs, views, replaced := errs + [err], views + [Contents(now)], replaced + [r];
        if err.None? && !r {
          dirty := dirty + {batch[i].tx.from};
        }
      }
      assert batch[..|batch|] == batch;
    }

    /** Moves the pool to a new head and takes back the transactions of abandoned blocks. */
    method Reset(head: NewHead, now: nat)
      returns (errs: seq<Option<PoolError>>, replaced: seq<bool>, ghost views: seq<View>)
      requires Valid() && head.NewHead? && RatedAll(head.state.ctx, all.Everything())
      requires forall i | 0 <= i < |head.reinject| :: head.reinject[i].RatedIfValid(head.state.ctx)
      modifies this, all
      ensures Valid() && state == head.state && locals == old(locals) && fresh(pendingNonces)
      ensures AddedInTurn(config, state.ctx, views, head.reinject, false, errs, replaced)
      ensures |views| == |head.reinject| + 1
      ensures views[0] == old(Contents(now)) && views[|head.reinject|] == Contents(now)
      ensures forall a :: pendingNonces.Nonce(a)
                          == NextInTurn(config, views, head.reinject, false, |head.reinject|, a, head.state.nonce(a))
    {
      hide Consistent, NoneEmpty, TxLookup.Valid, TxLookup.Everything, AddedInTurn, AddStep, NextInTurn, PartsOf;
      state := head.state;
      pendingNonces := new TxNoncer(state.nonce);
      var dirty;
      errs, dirty, replaced, views := AddAll(head.reinject, false, now);
    }

    /** One run of the background maintenance. Afterwards both parts of the pool are within their limits, as far as the
        exempt accounts allow, and every pending account's next nonce follows its highest pending one. What it promoted
        could be paid, and after a reset all that is pending can be. `seen` are the next nonces of the accounts
        `watched` as a reset leaves them. */
    method RunReorg(reset: Option<NewHead>, dirty: set<Address>, watched: set<Address>, now: nat)
      returns (promoted: seq<Transaction>, seen: map<Address, nat>, ghost t: Trace)
      requires Valid() && config.accountSlots >= 1
      requires Moves(reset) ==>
                 && RatedAll(reset.value.state.ctx, all.Everything())
                 && forall i | 0 <= i < |reset.value.reinject| ::
                      reset.value.reinject[i].RatedIfValid(reset.value.state.ctx)
      modifies this, all, pendingNonces
      ensures Valid() && changesSinceReorg == 0 && state == (if Moves(reset) then reset.value.state else old(state))
      ensures locals == old(locals) && (pendingNonces == old(pendingNonces) || fresh(pendingNonces))
      ensures Refreshed(config, state, locals, reset, dirty, old(Contents(now)), old(StageAt(now)), old(NextNonces()),
                        t, promoted)
      ensures FairlyTruncated(t.demoted.pending, pending, locals, config.accountSlots, config.globalSlots)
      ensures QueueTruncated(t.demoted.queue, queue, locals, config.globalQueue, t.demoted.beats)
      ensures reset.Some? ==>
                seen == map a | a in watched :: NonceThen(config, reset, t, a, old(pendingNonces.Nonce(a)))
      ensures Fewer(all.Sides(), StartOf(reset, t.added, old(Contents(now))).Sides())
      ensures reset.Some? ==> AllExecutable(state, pending)
      ensures forall tx | tx in promoted :: Affordable(state, tx.from, tx)
      ensures Total(pending) <= config.globalSlots || forall a | a in pending && a !in locals ::
                Len(pending, a) <= config.accountSlots
      ensures Total(queue) <= config.globalQueue || forall a | a in queue :: a in locals
      ensures forall a | a in pending :: NextAfter(pending[a].items, pendingNonces.Nonce(a))
    {
      hide Consistent, RatedAll, NoneEmpty, TxLookup.Valid, TxLookup.Everything, Total, NextAfter, Refreshed,
           FairlyTruncated, QueueTruncated, PartsOf, AllExecutable, Affordable, Fewer, StartOf, NonceThen;
      promoted, seen, t := Refresh(reset, dirty, watched, now);
      ghost var z := all.Sides();
      Truncate(now);
      FewerTrans(all.Sides(), z, StartOf(reset, t.added, old(Contents(now))).Sides());
      RunIsExecutable(config, state, locals, reset, dirty, old(Contents(now)), old(StageAt(now)), old(NextNonces()), t,
                      promoted, pending);
      AdvanceNonces();
      changesSinceReorg := 0;
    }

    ghost function StageAt(now: nat): Stage
      reads this
    {
      Stage(pending, queue, beats, now)
    }

    /** The next nonces of the accounts that have something queued. */
    ghost function NextNonces(): map<Address, nat>
      reads this, pendingNonces
    {
      map a | a in queue :: pendingNonces.Nonce(a)
    }

    /** The first half of a run: reset if there is a new head, promote, and demote after a reset. */
    method Refresh(reset: Option<NewHead>, dirty: set<Address>, watched: set<Address>, now: nat)
      returns (promoted: seq<Transaction>, seen: map<Address, nat>, ghost t: Trace)
      requires Valid()
      requires Moves(reset) ==>
                 && RatedAll(reset.value.state.ctx, all.Everything())
                 && forall i | 0 <= i < |reset.value.reinject| ::
                      reset.value.reinject[i].RatedIfValid(reset.value.state.ctx)
      modifies this, all, pendingNonces
      ensures Valid() && locals == old(locals) && (pendingNonces == old(pendingNonces) || fresh(pendingNonces))
      ensures state == if Moves(reset) then reset.value.state else old(state)
      ensures Refreshed(config, state, locals, reset, dirty, old(Contents(now)), old(StageAt(now)), old(NextNonces()),
                        t, promoted)
      ensures t.demoted == StageAt(now)
      ensures reset.Some? ==>
                seen == map a | a in watched :: NonceThen(config, reset, t, a, old(pendingNonces.Nonce(a)))
      ensures Fewer(all.Sides(), StartOf(reset, t.added, old(Contents(now))).Sides())
    {
      hide Consistent, RatedAll, NoneEmpty, TxLookup.Valid, TxLookup.Everything, ItemsAt, PartsOf, Fewer, StageOk,
           ResetStage, ResetNonce, PromotedStage, DemotedStage, ReadyInStage;
      var accounts := dirty;
      seen := map[];
      ghost var added := Readded([], [], []);
      if reset.Some? {
        seen, added := Move(reset.value, watched, now);
        accounts := queue.Keys;
      }
      InOrder(now);
      ghost var z0, s0 := all.Sides(), StageAt(now);
      ghost var nonces;
      promoted, nonces := PromoteExecutables(accounts, now);
      InOrder(now);
      ghost var z1, s1 := all.Sides(), StageAt(now);
      if reset.Some? {
        DemoteUnexecutables(now);
        FewerTrans(all.Sides(), z1, z0);
      }
      InOrder(now);
      t := Trace(s0, s1, StageAt(now), nonces, added);
    }

    /** Moves to a new head, unless the move is given up, and reads the next nonces of the accounts `watched`. */
    method Move(head: NewHead, watched: set<Address>, now: nat) returns (seen: map<Address, nat>, ghost added: Readded)
      requires Valid()
      requires head.NewHead? ==>
                 && RatedAll(head.state.ctx, all.Everything())
                 && forall i | 0 <= i < |head.reinject| :: head.reinject[i].RatedIfValid(head.state.ctx)
      modifies this, all, pendingNonces
      ensures Valid() && locals == old(locals) && (pendingNonces == old(pendingNonces) || fresh(pendingNonces))
      ensures state == if head.NewHead? then head.state else old(state)
      ensures head.NewHead? ==> ResetStage(config, head, old(Contents(now)), added, Stage(pending, queue, beats, now),
                                           map a | a in queue :: pendingNonces.Nonce(a))
      ensures head.NewHead? ==>
                |added.views| == |head.reinject| + 1 && Contents(now) == added.views[|head.reinject|]
      ensures head.GivenUp? ==> Contents(now) == old(Contents(now)) && pending == old(pending) && queue == old(queue)
      ensures forall a :: pendingNonces.Nonce(a) ==
                if head.NewHead? then ResetNonce(config, head, added, a) else old(pendingNonces.Nonce(a))
      ensures seen == map a | a in watched :: pendingNonces.Nonce(a)
    {
      hide Consistent, RatedAll, NoneEmpty, TxLookup.Valid, TxLookup.Everything, AddedInTurn, PartsOf, NextInTurn;
      added := Readded([], [], []);
      if head.NewHead? {
        ghost var views;
        var errs, replaced;
        errs, replaced, views := Reset(head, now);
        added := Readded(views, errs, replaced);
        KnownContents(now);
        assert Consistent(pending, queue, views[|head.reinject|].Everything(), NO_TRANSIT);
      }
      seen := NoncesOf(watched);
    }

    /** The next nonces of some accounts. */
    method NoncesOf(accounts: set<Address>) returns (m: map<Address, nat>)
      modifies pendingNonces
      ensures m == map a | a in accounts :: old(pendingNonces.Nonce(a))
      ensures forall a :: pendingNonces.Nonce(a) == old(pendingNonces.Nonce(a))
    {
      m := map[];
      var todo := accounts;
      while todo != {}
        invariant todo <= accounts && m == map a | a in accounts && a !in todo :: old(pendingNonces.Nonce(a))
        invariant forall a :: pendingNonces.Nonce(a) == old(pendingNonces.Nonce(a))
        decreases |todo|
      {
        var a :| a in todo;
        var n := pendingNonces.Get(a);
        m, todo := m[a := n], todo - {a};
      }
    }

    /** The second half of a run: bring both parts of the pool within their limits. */
    method Truncate(now: nat)
      requires Valid() && config.accountSlots >= 1
      modifies this`pending, this`queue, this`beats, all, pendingNonces
      ensures Valid() && Fewer(all.Sides(), old(all.Sides()))
      ensures FairlyTruncated(old(pending), pending, locals, config.accountSlots, config.globalSlots)
      ensures QueueTruncated(old(queue), queue, locals, config.globalQueue, old(beats))
      ensures Total(pending) <= config.globalSlots || forall a | a in pending && a !in locals ::
                Len(pending, a) <= config.accountSlots
      ensures Total(queue) <= config.globalQueue || forall a | a in queue :: a in locals
    {
      hide Consistent, RatedAll, NoneEmpty, FairlyTruncated, QueueTruncated, Fewer, TxLookup.Valid, TxLookup.Everything,
           Total;
      TruncatePending();
      FairIsWithin(old(pending), pending, locals, config.accountSlots, config.globalSlots);
      ghost var q, b, r := queue, beats, all.Sides();
      TruncateQueue(now);
      FewerTrans(all.Sides(), r, old(all.Sides()));
      QueueIsWithin(q, queue, locals, config.globalQueue, b);
    }

    /** Sets every pending account's next nonce after its highest pending one. */
    method AdvanceNonces()
      requires Valid()
      modifies pendingNonces
      ensures forall a | a in pending :: NextAfter(pending[a].items, pendingNonces.Nonce(a))
    {
      var todo := pending.Keys;
      while todo != {}
        invariant todo <= pending.Keys
        invariant forall a | a in pending && a !in todo :: NextAfter(pending[a].items, pendingNonces.Nonce(a))
        decreases |todo|
      {
        var a :| a in todo;
        HighestExists(pending[a].items);
        var highest :| highest in pending[a].items && forall y | y in pending[a].items :: y <= highest;
        pendingNonces.Set(a, Next(highest));
        assert NextAfter(pending[a].items, Next(highest));
        todo := todo - {a};
      }
    }

    /** Drops the queues of remote accounts that have been silent for longer than `lifetime`. */
    method EvictStale(lifetime: nat, now: nat)
      requires Valid()
      modifies this`pending, this`queue, this`beats, all, pendingNonces
      ensures Valid() && pending == old(pending) && Fewer(all.Sides(), old(all.Sides()))
      ensures forall a :: ItemsAt(queue, a) ==
                if a !in locals && now - BeatOf(old(beats), a) > lifetime then map[] else old(ItemsAt(queue, a))
      ensures forall a | a in old(queue) && a !in locals ::
                a in old(beats) && (a in queue <==> now <= old(beats)[a] + lifetime)
    {
      hide Consistent, RatedAll, NoneEmpty, SameBut, LowestPart, Evicted, Fewer, Beating, ItemsAt, Len, BeatOf,
           TxLookup.Valid, TxLookup.Everything;
      FewerRefl(all.Sides());
      var was := beats;
      var todo := queue.Keys;
      EvictedNone(queue, locals, was, lifetime, now);
      while todo != {}
        invariant Valid() && pending == old(pending) && todo <= old(queue).Keys && Fewer(all.Sides(), old(all.Sides()))
        invariant Evicted(old(queue), queue, locals, was, lifetime, now, todo)
        decreases |todo|
      {
        var a :| a in todo;
        ghost var before, r := queue, all.Sides();
        if a !in locals && now - BeatOf(was, a) > lifetime {
          RemoveHighest(a, Len(queue, a), now);
          FewerTrans(all.Sides(), r, old(all.Sides()));
        }
        EvictedMore(old(queue), before, queue, locals, was, lifetime, now, todo, a);
        todo := todo - {a};
      }
      EvictedAll(old(queue), queue, locals, was, lifetime, now);
      SilentGone(old(queue), queue, was);
    }
  }

  /** Eviction has dealt with every account outside `todo`. */
  ghost predicate Evicted(q0: Lists, q: Lists, locals: set<Address>, beats: map<Address, nat>, lifetime: nat, now: nat,
                          todo: set<Address>) {
    forall a :: ItemsAt(q, a) ==
      if a !in todo && a !in locals && now - BeatOf(beats, a) > lifetime then map[] else ItemsAt(q0, a)
  }

  lemma EvictedNone(q: Lists, locals: set<Address>, beats: map<Address, nat>, lifetime: nat, now: nat)
    ensures Evicted(q, q, locals, beats, lifetime, now, q.Keys)
  {
  }

  lemma EvictedMore(q0: Lists, q: Lists, q': Lists, locals: set<Address>, beats: map<Address, nat>, lifetime: nat,
                    now: nat, todo: set<Address>, a: Address)
    requires Evicted(q0, q, locals, beats, lifetime, now, todo) && a in todo
    requires if a !in locals && now - BeatOf(beats, a) > lifetime
             then SameBut(q, q', a) && ItemsAt(q', a) == LowestPart(ItemsAt(q, a), 0)
             else q' == q
    ensures Evicted(q0, q', locals, beats, lifetime, now, todo - {a})
  {
    hide SameBut;
    if a !in locals && now - BeatOf(beats, a) > lifetime {
      assert Lowest(ItemsAt(q, a).Keys, 0) == {};
      assert ItemsAt(q', a) == map[];
      SameOthers(q, q', a);
    }
  }

  lemma EvictedAll(q0: Lists, q: Lists, locals: set<Address>, beats: map<Address, nat>, lifetime: nat, now: nat)
    requires Evicted(q0, q, locals, beats, lifetime, now, {})
    ensures forall a :: ItemsAt(q, a) ==
              if a !in locals && now - BeatOf(beats, a) > lifetime then map[] else ItemsAt(q0, a)
  {
  }

  lemma SilentGone(q0: Lists, q: Lists, beats: map<Address, nat>)
    requires NoneEmpty(q0) && NoneEmpty(q) && Beating(q0, beats)
    ensures forall a | a in q0 :: a in beats && BeatOf(beats, a) == beats[a]
    ensures forall a :: a in q <==> ItemsAt(q, a) != map[]
    ensures forall a | a in q0 :: ItemsAt(q0, a) != map[]
  {
  }

  /** `next` follows the highest nonce of `m`. */
  ghost predicate NextAfter(m: Items, next: nat) {
    exists n | n in m :: (forall k | k in m :: k <= n) && next == Next(n)
  }

  lemma RequeuedTwice(b: Beats, a: Address, i: Items, j: Items, now: nat)
    ensures Requeued(Requeued(b, a, i, now), a, j, now) == Requeued(b, a, i + j, now)
  {
    assert i + j == map[] <==> i == map[] && j == map[] by {
      if j != map[] {
        var n :| n in j;
        assert n in i + j;
      } else {
        assert i + j == i;
      }
    }
  }

  lemma OthersNotEmpty(m: Lists, m': Lists, a: Address)
    requires NoneEmpty(m) && SameBut(m, m', a)
    ensures NoneEmpty(m' - {a})
  {
    forall b | b in m' - {a}
      ensures (m' - {a})[b].items != map[]
    {
      SameElsewhere(m, m', a, b);
    }
  }

  lemma NoneEmptyAfter(m: Lists, m': Lists, a: Address)
    requires NoneEmpty(m - {a}) && SameBut(m, m', a) && (a in m' ==> m'[a].items != map[])
    ensures NoneEmpty(m')
  {
    forall b | b in m'
      ensures m'[b].items != map[]
    {
      if b != a {
        SameElsewhere(m, m', a, b);
        assert b in m - {a} && (m - {a})[b] == m'[b];
      }
    }
  }

  lemma PlusAssoc(a: Items, b: Items, c: Items)
    ensures a + b + c == a + (b + c)
  {
  }

  lemma CutDisjoint(l: List, o: FilterOutcome, a: Address)
    requires CutOf(l, o, a, true)
    ensures Disjoint(o.invalids, o.list.items)
  {
  }

  /** The nonce after `promoted` have been accounted for. */
  function Advanced(n: nat, promoted: seq<Transaction>): nat {
    if promoted == [] then n else Next(promoted[|promoted| - 1].nonce)
  }

  lemma AdvancedMore(n: nat, promoted: seq<Transaction>, last: nat)
    ensures promoted == [] ==> Advanced(n, promoted) == n
    ensures promoted != [] && promoted[|promoted| - 1].nonce == last ==> Advanced(n, promoted) == Next(last)
  {
  }

  /** `promoted` lists, in order, what is no longer in `todo`. */
  ghost predicate Promoting(items: Items, todo: Items, promoted: seq<Transaction>) {
    && (forall n | n in todo :: n in items && todo[n] == items[n])
    && IsListing(items - todo.Keys, promoted)
    && (forall i, n | 0 <= i < |promoted| && n in todo :: promoted[i].nonce < n)
  }

  lemma PromotingNone(items: Items)
    ensures Promoting(items, items, [])
  {
    assert items - items.Keys == map[];
  }

  lemma PromotedAll(items: Items, promoted: seq<Transaction>)
    requires Promoting(items, map[], promoted)
    ensures IsListing(items, promoted)
  {
    assert items - {} == items;
  }

  lemma PutList(m: Lists, a: Address, l: List)
    ensures SameBut(m, m[a := l], a)
  {
  }

  lemma SlotsCounted(all: TxLookup)
    requires all.Valid()
    ensures all.slots == SlotSum(all.Everything())
  {
  }

  lemma PromotingMore(items: Items, todo: Items, promoted: seq<Transaction>, n: nat)
    requires Promoting(items, todo, promoted) && IsMin(todo.Keys, n) && todo[n].nonce == n
    ensures Promoting(items, todo - {n}, promoted + [todo[n]])
  {
    var taken, tx := items - todo.Keys, todo[n];
    assert items - (todo - {n}).Keys == taken[n := tx];
    ListingGrows(taken, promoted, n, tx);
  }

  lemma ListingGrows(m: Items, s: seq<Transaction>, n: nat, tx: Transaction)
    requires IsListing(m, s) && n !in m && tx.nonce == n && forall i | 0 <= i < |s| :: s[i].nonce < n
    ensures IsListing(m[n := tx], s + [tx])
  {
  }

  lemma ReadyDisjoint(p: Items, l: List, next: nat)
    requires Disjoint(p, l.items)
    ensures Disjoint(ReadyCut(l, next).invalids, p)
  {
  }

  lemma FewerLess(z: TwoSides, h: Hash)
    ensures Fewer(z.Without(h), z)
  {
  }

  lemma FewerTrans(a: TwoSides, b: TwoSides, c: TwoSides)
    requires Fewer(a, b) && Fewer(b, c)
    ensures Fewer(a, c)
  {
  }

  lemma LooseFilter(ctx: Context, l: List, lim: Limits, a: Address)
    requires ListFor(l, a, false)
    ensures Filter(ctx, l, lim).invalids == map[]
  {
  }

  lemma SwappedForItself(e: Known, e': Known, tx: Transaction)
    requires HashKeyed(e) && Swapped(e, e', None, tx) && InLookup(e, tx)
    ensures e' == e
  {
    forall h | h in e
      ensures h in e' && e'[h] == e[h]
    {
      assert InLookup(e, e[h]);
      assert InLookup(e', e[h]);
    }
    forall h | h in e'
      ensures h in e
    {
      assert InLookup(e', e'[h]);
    }
  }

  // ---------- What adding means for the lookup ----------

  function Members(hs: seq<Hash>): set<Hash> {
    set i | 0 <= i < |hs| :: hs[i]
  }

  /** Both come from one account with one nonce. */
  predicate SameSlot(x: Transaction, tx: Transaction) {
    x.from == tx.from && x.nonce == tx.nonce
  }

  ghost predicate Occupied(e: Known, tx: Transaction) {
    exists x :: InLookup(e, x) && SameSlot(x, tx)
  }

  /** The lookup a newcomer finds: without the dropped when the pool was full. */
  ghost function Found(config: Config, e: Known, s: Submission): Known {
    if Full(config, e, s.tx) then e - Members(s.advice.drop) else e
  }

  /** What adding one submission does to the lookup, and when it fails: a newcomer takes the place of whatever the pool
      still knows with its sender and nonce, and replaces just that. */
  ghost predicate AddStep(config: Config, e: Known, e': Known, s: Submission, err: Option<PoolError>, replaced: bool) {
    && (err == Some(AlreadyKnown) <==> s.tx.hash in e)
    && (s.tx.hash !in e ==> (err.Some? && err.value.Invalid? <==> s.invalid.Some?))
    && (err.None? ==>
          && (replaced <==> Occupied(Found(config, e, s), s.tx))
          && forall x :: InLookup(e', x) <==> x == s.tx || (InLookup(Found(config, e, s), x) && !SameSlot(x, s.tx)))
    && (err == Some(ReplaceUnderpriced) ==> e' == Found(config, e, s) && Occupied(e', s.tx) && !replaced)
    && (err.Some? && err != Some(ReplaceUnderpriced) ==> e' == e && !replaced)
  }

  lemma LookupKeyed(all: TxLookup)
    requires all.Valid()
    ensures HashKeyed(all.Everything())
  {
  }

  /** What the pool knows with the newcomer's sender and nonce is what its lists hold there. */
  lemma SlotHolder(p: Lists, q: Lists, e: Known, tx: Transaction)
    requires Consistent(p, q, e, NO_TRANSIT)
    ensures var m := if tx.nonce in ItemsAt(p, tx.from) then ItemsAt(p, tx.from) else ItemsAt(q, tx.from);
            && (forall x :: InLookup(e, x) && SameSlot(x, tx) <==> At(m, tx.nonce) == Some(x))
            && (Occupied(e, tx) <==> tx.nonce in m)
  {
    var m := if tx.nonce in ItemsAt(p, tx.from) then ItemsAt(p, tx.from) else ItemsAt(q, tx.from);
    if tx.nonce in m {
      if tx.nonce in ItemsAt(p, tx.from) {
        PendingIsKnown(p, q, e, tx.from, tx.nonce);
        assert ListFor(p[tx.from], tx.from, true);
      } else {
        QueuedIsKnown(p, q, e, tx.from, tx.nonce);
      }
      assert InLookup(e, m[tx.nonce]) && SameSlot(m[tx.nonce], tx);
    }
    forall x | InLookup(e, x) && SameSlot(x, tx)
      ensures At(m, tx.nonce) == Some(x)
    {
      KnownIsAtItsNonce(p, q, e, x);
    }
  }

  lemma FoundWithin(config: Config, e: Known, s: Submission)
    ensures forall h | h in Found(config, e, s) :: h in e
  {
  }

  lemma StepRefused(config: Config, e: Known, s: Submission, err: PoolError)
    requires s.tx.hash !in e && s.invalid.None? && err in {Underpriced, PoolOverflow}
    ensures AddStep(config, e, e, s, Some(err), false)
  {
  }

  lemma StepUnderpriced(config: Config, e: Known, e': Known, s: Submission)
    requires s.tx.hash !in e && s.invalid.None? && e' == Found(config, e, s) && Occupied(e', s.tx)
    ensures AddStep(config, e, e', s, Some(ReplaceUnderpriced), false)
  {
    hide Found, Occupied;
  }

  lemma StepAdded(config: Config, e: Known, e1: Known, e2: Known, s: Submission, old_: Option<Transaction>,
                  replaced: bool)
    requires s.tx.hash !in e && s.invalid.None? && e1 == Found(config, e, s) && s.tx.hash !in e1
    requires Swapped(e1, e2, old_, s.tx) && (replaced <==> Occupied(e1, s.tx))
    requires forall x :: InLookup(e1, x) && SameSlot(x, s.tx) <==> old_ == Some(x)
    ensures AddStep(config, e, e2, s, None, replaced)
  {
    hide Found, Occupied;
    SwappedSlot(e1, e2, old_, s.tx);
  }

  lemma SwappedSlot(e: Known, e': Known, old_: Option<Transaction>, tx: Transaction)
    requires Swapped(e, e', old_, tx) && tx.hash !in e
    requires forall x :: InLookup(e, x) && SameSlot(x, tx) <==> old_ == Some(x)
    ensures forall x :: InLookup(e', x) <==> x == tx || (InLookup(e, x) && !SameSlot(x, tx))
  {
  }

  lemma RemovedNone(v: View)
    ensures RemovedAll(v, []) == v && forall a, n :: RemovedAllNext(v, [], a, n) == n
  {
  }

  lemma NoneAdded(config: Config, ctx: Context, v: View, batch: seq<Submission>, local: bool)
    ensures AddedInTurn(config, ctx, [v], batch[..0], local, [], [])
    ensures forall a, n :: NextInTurn(config, [v], batch, local, 0, a, n) == n
  {
  }

  lemma NextOneMore(config: Config, views: seq<View>, batch: seq<Submission>, local: bool, k: nat, v: View)
    requires k < |batch| && |views| == k + 1
    ensures forall a, n :: NextInTurn(config, views + [v], batch, local, k + 1, a, n)
                           == AddedNext(config, views[k], batch[k], local, a,
                                        NextInTurn(config, views, batch, local, k, a, n))
  {
    hide AddedNext;
    forall a, n
      ensures NextInTurn(config, views + [v], batch, local, k + 1, a, n)
              == AddedNext(config, views[k], batch[k], local, a, NextInTurn(config, views, batch, local, k, a, n))
    {
      NextInTurnExtends(config, views, [v], batch, local, k, a, n);
    }
  }

  lemma FewerRefl(z: TwoSides)
    ensures Fewer(z, z)
  {
  }

  lemma ForgetKeeps(ctx: Context, e: Known, z: TwoSides, z0: TwoSides, h: Hash)
    requires RatedAll(ctx, e) && Fewer(z, z0)
    ensures RatedAll(ctx, e - {h}) && Fewer(z.Without(h), z0)
  {
  }

  lemma DisjointLess(todo: Items, m: Items, n: nat)
    requires Disjoint(todo, m) && n in todo
    ensures n !in m && Disjoint(todo - {n}, m[n := todo[n]])
  {
  }

  lemma MoveMore(base: Items, todo: Items, n: nat)
    requires n in todo
    ensures base[n := todo[n]] + (todo - {n}) == base + todo
  {
  }

  /** An account's list was replaced by a cut, or dropped because the cut left nothing. */
  lemma AfterCut(m: Lists, m': Lists, a: Address, l: List)
    requires m' == (if l.items == map[] then m[a := l] - {a} else m[a := l])
    ensures SameBut(m, m', a) && ItemsAt(m', a) == l.items
    ensures NoneEmpty(m) ==> NoneEmpty(m')
  {
  }

  lemma SameButRefl(m: Lists, a: Address)
    ensures SameBut(m, m, a)
  {
  }

  lemma SameButTrans(m: Lists, m': Lists, m'': Lists, a: Address)
    requires SameBut(m, m', a) && SameBut(m', m'', a)
    ensures SameBut(m, m'', a)
  {
  }

  lemma StillNoneEmpty(m: Lists, m': Lists, a: Address)
    requires NoneEmpty(m) && SameBut(m, m', a) && (a in m' ==> m'[a].items != map[])
    ensures NoneEmpty(m')
  {
    forall b | b in m'
      ensures m'[b].items != map[]
    {
      if b != a { SameElsewhere(m, m', a, b); }
    }
  }

  lemma TransitTx(p: Lists, q: Lists, e: Known, t: Transit, n: nat, ctx: Context)
    requires Consistent(p, q, e, t) && RatedAll(ctx, e) && n in t.items
    ensures t.items[n].nonce == n && t.items[n].from == t.account && Rated(ctx, t.items[n])
    ensures n !in ItemsAt(q, t.account)
  {
    assert InLookup(e, t.items[n]) <==> Located(p, q, t, t.items[n]);
  }

  /** Like Forgot, with the transactions of `todo` still to be removed. */
  ghost predicate ForgotBut(e: Known, e': Known, gone: Items, todo: Items) {
    && HashKeyed(e')
    && forall tx: Transaction :: InLookup(e', tx) <==> InLookup(e, tx) && (Holds(gone, tx) ==> Holds(todo, tx))
  }

  /** The transactions of `gone` that are not in `todo` have left the lookup, and nothing else has. */
  ghost predicate Forgotten(ctx: Context, e: Known, z: TwoSides, gone: Items, todo: Items, e': Known, z': TwoSides) {
    && HashKeyed(e) && Keyed(gone) && (forall n | n in gone :: InLookup(e, gone[n]))
    && (forall n | n in todo :: n in gone && todo[n] == gone[n])
    && ForgotBut(e, e', gone, todo) && RatedAll(ctx, e') && Fewer(z', z)
  }

  lemma ForgottenNone(ctx: Context, e: Known, z: TwoSides, gone: Items)
    requires HashKeyed(e) && Keyed(gone) && RatedAll(ctx, e) && forall n | n in gone :: InLookup(e, gone[n])
    ensures Forgotten(ctx, e, z, gone, gone, e, z)
  {
    hide RatedAll;
  }

  lemma ForgottenMore(ctx: Context, e: Known, z: TwoSides, gone: Items, todo: Items, e': Known, z': TwoSides, n: nat)
    requires Forgotten(ctx, e, z, gone, todo, e', z') && n in todo
    ensures var h := todo[n].hash; Forgotten(ctx, e, z, gone, todo - {n}, e' - {h}, z'.Without(h))
  {
    hide RatedAll, Fewer, ForgotBut;
    ForgetStep(e, e', gone, todo, n);
    ForgetKeeps(ctx, e', z', z, todo[n].hash);
  }

  lemma ForgottenAll(ctx: Context, e: Known, z: TwoSides, gone: Items, e': Known, z': TwoSides)
    requires Forgotten(ctx, e, z, gone, map[], e', z')
    ensures Forgot(e, e', gone) && RatedAll(ctx, e') && Fewer(z', z)
  {
    hide RatedAll, Fewer;
  }

  lemma ForgetStep(e: Known, e': Known, gone: Items, todo: Items, n: nat)
    requires HashKeyed(e) && ForgotBut(e, e', gone, todo) && n in todo
    requires forall k | k in todo :: k in gone && todo[k] == gone[k]
    requires InLookup(e, todo[n]) && Keyed(gone)
    ensures ForgotBut(e, e' - {todo[n].hash}, gone, todo - {n})
  {
    var e'' := e' - {todo[n].hash};
    forall tx: Transaction
      ensures InLookup(e'', tx) <==> InLookup(e, tx) && (Holds(gone, tx) ==> Holds(todo - {n}, tx))
    {
      assert InLookup(e', todo[n]);
    }
  }
}
