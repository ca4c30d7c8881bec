/** The pool and its price heaps together: who has to leave for a newcomer, and what that guarantees. */
module PricedPools {
  import opened Options
  import opened Types
  import opened NonceMap
  import opened Currency
  import opened TxLists
  import opened Lookup
  import opened PoolInvariant
  import opened PoolViews
  import opened PoolStages
  import opened Pool
  import Prices = PricedLists
  import PoolTruncation
  import PoolRuns

  /** A live entry is the remote transaction of its hash, and the only entry for it. */
  ghost predicate TrackedOnce(remotes: Known, tracked: multiset<Transaction>) {
    forall x | x in tracked && x.hash in remotes :: remotes[x.hash] == x && tracked[x] == 1
  }

  /** What is known of a run so far: whether every live entry is single for sure, the hashes handed in, and the
      currencies they need rates for. */
  datatype Past = Past(once: bool, seen: set<Hash>, used: set<Address>)

  /** The price heaps know every remote transaction, once if that is sure, and nothing that was never handed in. */
  ghost predicate InStep(remotes: Known, tracked: multiset<Transaction>, past: Past) {
    && Prices.Tracks(remotes, tracked) && (past.once ==> TrackedOnce(remotes, tracked))
    && remotes.Keys <= past.seen && forall x | x in tracked :: x.hash in past.seen
  }

  /** Remotes may leave before the heaps hear of it. */
  lemma StepFewer(remotes: Known, remotes': Known, tracked: multiset<Transaction>, past: Past)
    requires InStep(remotes, tracked, past) && SubMap(remotes', remotes)
    ensures InStep(remotes', tracked, past)
  {
  }

  /** When they do, they may be rebuilt. */
  lemma StepHeard(remotes: Known, now: Known, tracked: multiset<Transaction>, tracked': multiset<Transaction>,
                  past: Past)
    requires InStep(remotes, tracked, past) && SubMap(remotes, now) && HashKeyed(now) && now.Keys <= past.seen
    requires tracked' == tracked || tracked' == multiset(now.Values)
    ensures InStep(remotes, tracked', past)
  {
    if tracked' != tracked {
      StepRebuilt(now, past.seen, past.used);
      StepFewer(now, remotes, tracked', Past(true, past.seen, past.used));
    }
  }

  lemma StepRebuilt(remotes: Known, seen: set<Hash>, used: set<Address>)
    requires HashKeyed(remotes) && remotes.Keys <= seen
    ensures InStep(remotes, multiset(remotes.Values), Past(true, seen, used))
  {
    forall x | x in multiset(remotes.Values)
      ensures x.hash in remotes && remotes[x.hash] == x
    {
      var h :| h in remotes && remotes[h] == x;
    }
  }

  /** What was given up has left the pool. */
  lemma StepDropped(remotes: Known, before: multiset<Transaction>, after: multiset<Transaction>, drop: seq<Transaction>,
                    past: Past)
    requires InStep(remotes, before, past) && HashKeyed(remotes) && Prices.Conserved(remotes, before, after, drop)
    ensures InStep(remotes - Prices.Hashes(drop), after, past)
  {
    Prices.StillTracks(remotes, before, after, drop);
    assert forall x | x in after :: x in before && after[x] <= before[x];
  }

  /** A remote newcomer is tracked; it stays sure that entries are single if its hash was never handed in before. */
  lemma StepPut(remotes: Known, tracked: multiset<Transaction>, tx: Transaction, past: Past)
    requires InStep(remotes, tracked, past) && tx.hash !in remotes
    ensures InStep(remotes[tx.hash := tx], tracked + multiset{tx},
                   Past(past.once && tx.hash !in past.seen, past.seen + {tx.hash}, past.used))
  {
    if past.once && tx.hash !in past.seen {
      assert tx !in tracked;
    }
  }

  lemma StepLater(remotes: Known, tracked: multiset<Transaction>, past: Past, later: Past)
    requires InStep(remotes, tracked, past) && past.seen <= later.seen && (later.once ==> past.once)
    ensures InStep(remotes, tracked, later)
  {
  }

  function HashesOf(txs: seq<Transaction>): seq<Hash> {
    seq(|txs|, i requires 0 <= i < |txs| => txs[i].hash)
  }

  lemma SameHashes(txs: seq<Transaction>)
    ensures Members(HashesOf(txs)) == Prices.Hashes(txs)
  {
    forall h | h in Prices.Hashes(txs)
      ensures h in Members(HashesOf(txs))
    {
      var i :| 0 <= i < |txs| && txs[i].hash == h;
      assert HashesOf(txs)[i] == h;
    }
  }

  /** What Discard gives up is distinct when live entries are. */
  lemma DistinctDrops(remotes: Known, before: multiset<Transaction>, after: multiset<Transaction>,
                      drop: seq<Transaction>)
    requires TrackedOnce(remotes, before) && Prices.Conserved(remotes, before, after, drop)
    ensures forall i | 0 <= i < |drop| :: InLookup(remotes, drop[i])
    ensures Prices.NoneTwice(drop)
  {
    Prices.DroppedAsTracked(remotes, before, after, drop);
    forall i | 0 <= i < |drop|
      ensures InLookup(remotes, drop[i]) && before[drop[i]] == 1
    {
      assert drop[i] in drop && Prices.Live(remotes, drop[i]) && drop[i] in before;
    }
  }

  lemma {:induction false} RemovedRemotes(v: View, hs: seq<Hash>)
    ensures RemovedAll(v, hs).remotes == v.remotes - Members(hs) && RemovedAll(v, hs).locals == v.locals - Members(hs)
    ensures RemovedAll(v, hs).exempt == v.exempt
    decreases |hs|
  {
    if hs == [] {
      assert v.remotes - Members(hs) == v.remotes && v.locals - Members(hs) == v.locals;
    } else {
      var init, h := hs[..|hs| - 1], hs[|hs| - 1];
      RemovedRemotes(v, init);
      assert Members(hs) == Members(init) + {h};
      var w := RemovedAll(v, init);
      RemovedLookup(w, h);
      assert w.remotes - {h} == v.remotes - Members(hs) && w.locals - {h} == v.locals - Members(hs);
    }
  }

  lemma RemovedLookup(v: View, h: Hash)
    ensures Removed(v, h).remotes == v.remotes - {h} && Removed(v, h).locals == v.locals - {h}
    ensures Removed(v, h).exempt == v.exempt
  {
    if h !in v.Everything() {
      assert v.remotes - {h} == v.remotes && v.locals - {h} == v.locals;
    }
  }

  /** Placing a newcomer brings in no other remote. */
  lemma PlacedRemotes(v: View, tx: Transaction, local: bool)
    ensures SubMap(Placed(v, tx, local).remotes,
                   if local || tx.from in v.exempt then v.remotes else v.remotes[tx.hash := tx])
  {
    hide PartAt;
  }

  /** The dropped take as many slots as the newcomer lacks. */
  ghost predicate FoundRoom(config: Config, e: Known, tx: Transaction, drop: seq<Transaction>) {
    Prices.SumSlots(drop) >= SlotSum(e) + tx.Slots() - (config.globalSlots + config.globalQueue)
  }

  /** Every live entry was given up. */
  ghost predicate GaveAll(remotes: Known, before: multiset<Transaction>, drop: seq<Transaction>) {
    forall tx | Prices.Live(remotes, tx) :: multiset(drop)[tx] == before[tx]
  }

  /** What the price heaps say about a newcomer to a full pool, asked in the order of the pool: nothing is discarded for
      one that is underpriced, or when too many have been dropped already. */
  method Consult(pool: TxPool, list: Prices.TxPricedList, tx: Transaction, isLocal: bool)
    returns (advice: PriceAdvice, ghost drop: seq<Transaction>)
    requires pool.Valid() && list.Valid() && list.all == pool.all && Full(pool.config, pool.all.Everything(), tx)
    modifies list`stales, list.urgent`heaps, list.floating`heaps
    ensures list.Valid() && advice.drop == HashesOf(drop)
    ensures Prices.Conserved(pool.all.remotes, old(list.Tracked()), list.Tracked(), drop)
    ensures RoomError(true, isLocal, advice, pool.changesSinceReorg, pool.config).Some? ==> drop == []
    ensures RoomError(true, isLocal, advice, pool.changesSinceReorg, pool.config).None? ==>
              FoundRoom(pool.config, pool.all.Everything(), tx, drop)
              || (isLocal && GaveAll(pool.all.remotes, old(list.Tracked()), drop))
  {
    hide Prices.Conserved, Prices.SumSlots, Prices.DiscardRun, Prices.DropsOf, Prices.TxPricedList.Valid,
         Prices.TxPricedList.Tracked, Prices.CheaperThanAll, Prices.DearerThan, SlotSum, TxPool.Valid;
    ghost var remotes := pool.all.remotes;
    advice, drop := PriceAdvice(false, [], true), [];
    Prices.NothingDropped(remotes, list.Tracked());
    if !isLocal {
      var under, better := list.Underpriced(tx);
      if under {
        return PriceAdvice(true, [], true), [];
      }
    }
    if pool.changesSinceReorg > pool.config.globalSlots / 4 {
      return;
    }
    ghost var mid := list.Tracked();
    PoolSlots(pool);
    var dropped, ok, considered, moments, popped :=
      list.Discard(pool.all.slots - (pool.config.globalSlots + pool.config.globalQueue) + tx.Slots(), isLocal);
    drop := dropped;
    ConservedThen(remotes, old(list.Tracked()), mid, list.Tracked(), drop);
    advice := PriceAdvice(false, HashesOf(dropped), ok);
  }

  lemma PoolSlots(pool: TxPool)
    requires pool.Valid()
    ensures pool.all.Valid() && pool.all.slots == SlotSum(pool.all.Everything())
    ensures HashKeyed(pool.all.remotes) && pool.all.locals.Keys !! pool.all.remotes.Keys
    ensures pool.Contents(0).Everything() == pool.all.Everything()
  {
  }

  /** `drop` is what was discarded for `s`: nothing, unless the pool was full and found room that way. */
  ghost predicate DiscardedFor(config: Config, v: View, s: Submission, local: bool, drop: seq<Transaction>) {
    && s.advice.drop == HashesOf(drop)
    && (!MakesRoom(config, v, s, local) ==> drop == [])
  }

  /** The pool is full and drops something for `s`. */
  ghost predicate MakesRoom(config: Config, v: View, s: Submission, local: bool) {
    && s.tx.hash !in v.Everything() && s.invalid.None? && Full(config, v.Everything(), s.tx)
    && RoomError(true, local || s.tx.from in v.exempt, s.advice, v.changes, config).None?
  }

  /** The lookup that `s` finds once room has been made. */
  lemma RoomLookup(config: Config, v: View, s: Submission, local: bool, drop: seq<Transaction>)
    requires DiscardedFor(config, v, s, local, drop)
    ensures var v1 := RoomMade(config, v, s);
            && v1.remotes == v.remotes - Prices.Hashes(drop) && v1.locals == v.locals - Prices.Hashes(drop)
            && v1.exempt == v.exempt
  {
    hide RoomError, SlotSum, RemovedAll;
    SameHashes(drop);
    RemovedRemotes(v, s.advice.drop);
    if drop == [] {
      assert v.remotes - Prices.Hashes(drop) == v.remotes && v.locals - Prices.Hashes(drop) == v.locals;
    }
  }

  /** The pool is within its slots, or nothing in it could be dropped for a local newcomer. */
  ghost predicate Fits(config: Config, v: View, isLocal: bool) {
    SlotSum(v.Everything()) <= config.globalSlots + config.globalQueue || (isLocal && v.remotes == map[])
  }

  /** A newcomer never makes the pool outgrow its slots, except that a local one may once no remote is left. */
  lemma AddedFits(config: Config, ctx: Context, v: View, s: Submission, local: bool, drop: seq<Transaction>,
                  before: multiset<Transaction>, after: multiset<Transaction>)
    requires v.locals.Keys !! v.remotes.Keys && HashKeyed(v.remotes)
    requires TrackedOnce(v.remotes, before) && Prices.Tracks(v.remotes, before)
    requires Prices.Conserved(v.remotes, before, after, drop) && DiscardedFor(config, v, s, local, drop)
    requires MakesRoom(config, v, s, local) ==>
               || FoundRoom(config, v.Everything(), s.tx, drop)
               || ((local || s.tx.from in v.exempt) && GaveAll(v.remotes, before, drop))
    requires Added(config, ctx, v, s, local).err.None?
    ensures Fits(config, Added(config, ctx, v, s, local).view, local || s.tx.from in v.exempt)
  {
    hide RoomMade, Placed, Prices.Conserved, Accepts, Site, Prices.Hashes, HashesOf, TrackedOnce, SlotSum,
         Prices.SumSlots, GaveAll, Prices.Tracks;
    var e, v1 := v.Everything(), RoomMade(config, v, s);
    RoomLookup(config, v, s, local, drop);
    if MakesRoom(config, v, s, local) && !FoundRoom(config, e, s.tx, drop) {
      NoneLeft(v.remotes, before, drop);
      PlacedRemotes(v1, s.tx, local);
    } else {
      DistinctDrops(v.remotes, before, after, drop);
      Prices.SlotsFreed(e, drop);
      assert v1.Everything() == e - Prices.Hashes(drop);
      PlacedSlots(v1, s.tx, local);
    }
  }

  lemma NoneLeft(remotes: Known, before: multiset<Transaction>, drop: seq<Transaction>)
    requires HashKeyed(remotes) && Prices.Tracks(remotes, before) && GaveAll(remotes, before, drop)
    ensures remotes - Prices.Hashes(drop) == map[]
  {
    forall h | h in remotes
      ensures h in Prices.Hashes(drop)
    {
      assert remotes[h] in multiset(drop);
      var i :| 0 <= i < |drop| && drop[i] == remotes[h];
    }
  }

  lemma PlacedSlots(v: View, tx: Transaction, local: bool)
    requires tx.hash !in v.Everything()
    ensures SlotSum(Placed(v, tx, local).Everything()) <= SlotSum(v.Everything()) + tx.Slots()
  {
    hide SlotSum, Placed, Site, View.Everything;
    PlacedLookup(v, tx, local);
    SwapSlots(v.Everything(), At(Site(v, tx), tx.nonce), tx);
  }

  lemma PlacedLookup(v: View, tx: Transaction, local: bool)
    requires tx.hash !in v.Everything()
    ensures Placed(v, tx, local).Everything() == (v.Everything() - Hashes(At(Site(v, tx), tx.nonce)))[tx.hash := tx]
  {
    hide PartAt, Exempted, SentBySome, SentByOthers;
    var gone := Hashes(At(Site(v, tx), tx.nonce));
    assert (v.locals - gone) + (v.remotes - gone)[tx.hash := tx] == (v.locals + v.remotes - gone)[tx.hash := tx];
    assert (v.locals - gone)[tx.hash := tx] + (v.remotes - gone) == (v.locals + v.remotes - gone)[tx.hash := tx];
    ExemptedLookup(Queued(v, tx, local || tx.from in v.exempt), tx.from);
  }

  lemma ExemptedLookup(v: View, a: Address)
    ensures Exempted(v, a).Everything() == v.Everything()
  {
  }

  lemma SwapSlots(e: Known, old_: Option<Transaction>, tx: Transaction)
    requires tx.hash !in e
    ensures SlotSum((e - Hashes(old_))[tx.hash := tx]) <= SlotSum(e) + tx.Slots()
  {
    hide SlotSum;
    var e' := e - Hashes(old_);
    SlotSumWith(e', tx);
    if old_.Some? && old_.value.hash in e {
      SlotSumWithout(e, old_.value.hash);
    } else {
      assert e' == e;
    }
  }

  lemma IsFull(pool: TxPool, tx: Transaction, full: bool)
    requires pool.Valid() && full == (pool.all.slots + tx.Slots() > pool.config.globalSlots + pool.config.globalQueue)
    ensures full <==> Full(pool.config, pool.all.Everything(), tx)
  {
  }

  lemma ConservedThen(remotes: Known, a: multiset<Transaction>, b: multiset<Transaction>, c: multiset<Transaction>,
                      drop: seq<Transaction>)
    requires Prices.Conserved(remotes, a, b, []) && Prices.Conserved(remotes, b, c, drop)
    ensures Prices.Conserved(remotes, a, c, drop)
  {
  }

  // ---------- Adding with the price heaps ----------

  /** Adds a transaction with the price heaps consulted and told. Every remote of the pool stays tracked, so that it can
      be evicted one day. And no newcomer makes the pool outgrow its slots, except a local one once no remote is left,
      as long as no remote has more than one entry in the heaps. */
  method AddPriced(pool: TxPool, list: Prices.TxPricedList, tx: Transaction, local: bool, invalid: Option<nat>,
                   now: nat, ghost past: Past)
    returns (replaced: bool, err: Option<PoolError>, ghost advice: PriceAdvice)
    requires pool.Valid() && (invalid.None? ==> Rated(pool.state.ctx, tx))
    requires list.Valid() && list.all == pool.all && InStep(pool.all.remotes, list.Tracked(), past)
    modifies pool`pending, pool`queue, pool`beats, pool`locals, pool`changesSinceReorg, pool.all, pool.pendingNonces,
             list`stales, list.urgent`heaps, list.floating`heaps
    ensures pool.Valid() && list.Valid()
    ensures Outcome(pool.Contents(now), err, replaced)
            == Added(pool.config, pool.state.ctx, old(pool.Contents(now)), Submission(tx, invalid, advice), local)
    ensures InStep(pool.all.remotes, list.Tracked(), Submitted(past, tx, local))
    ensures err.None? && past.once ==> Fits(pool.config, pool.Contents(now), local || tx.from in old(pool.locals))
  {
    hide Prices.TxPricedList.Valid, Prices.TxPricedList.Tracked, InStep, TxPool.Valid, RoomMade, Placed, Full,
         RoomError, Accepts, Site, Fits, PartsOf;
    advice := PriceAdvice(false, [], false);
    PoolSlots(pool);
    var known := pool.all.Get(tx.hash);
    if known.Some? || invalid.Some? {
      StepLater(pool.all.remotes, list.Tracked(), past, Submitted(past, tx, local));
      return false, Some(if known.Some? then AlreadyKnown else Invalid(invalid.value)), advice;
    }
    replaced, err, advice := AddNewPriced(pool, list, tx, local, now, past);
  }

  /** What is known after `tx` has been handed in. */
  function Submitted(past: Past, tx: Transaction, local: bool): Past {
    past.(once := past.once && (local || tx.hash !in past.seen), seen := past.seen + {tx.hash})
  }

  method AddNewPriced(pool: TxPool, list: Prices.TxPricedList, tx: Transaction, local: bool, now: nat, ghost past: Past)
    returns (replaced: bool, err: Option<PoolError>, ghost advice: PriceAdvice)
    requires pool.Valid() && Rated(pool.state.ctx, tx) && tx.hash !in pool.all.Everything()
    requires list.Valid() && list.all == pool.all && InStep(pool.all.remotes, list.Tracked(), past)
    modifies pool`pending, pool`queue, pool`beats, pool`locals, pool`changesSinceReorg, pool.all, pool.pendingNonces,
             list`stales, list.urgent`heaps, list.floating`heaps
    ensures pool.Valid() && list.Valid()
    ensures Outcome(pool.Contents(now), err, replaced)
            == Added(pool.config, pool.state.ctx, old(pool.Contents(now)), Submission(tx, None, advice), local)
    ensures InStep(pool.all.remotes, list.Tracked(), Submitted(past, tx, local))
    ensures err.None? && past.once ==> Fits(pool.config, pool.Contents(now), local || tx.from in old(pool.locals))
  {
    hide Prices.TxPricedList.Valid, Prices.TxPricedList.Tracked, Prices.Conserved, InStep, TxPool.Valid, RoomMade,
         Placed, Full, RoomError, Accepts, Site, Fits, PartsOf, FoundRoom, GaveAll, DiscardedFor, MakesRoom, Submitted;
    ghost var v, before, drop := pool.Contents(now), list.Tracked(), [];
    KnownView(pool, now);
    err, advice, drop := MakeRoomPriced(pool, list, tx, local, now, past);
    ghost var s, after := Submission(tx, None, advice), list.Tracked();
    StepSubmitted(pool.all.remotes, list.Tracked(), past, tx, local);
    if err.Some? {
      return false, err, advice;
    }
    var ok;
    ok, replaced := PlacePriced(pool, list, tx, local, now, past);
    if !ok {
      return false, Some(ReplaceUnderpriced), advice;
    }
    if past.once {
      StepMeans(v.remotes, before, past);
      AddedFits(pool.config, pool.state.ctx, v, s, local, drop, before, after);
    }
  }

  lemma KnownView(pool: TxPool, now: nat)
    requires pool.Valid()
    ensures pool.Contents(now).Everything() == pool.all.Everything() && HashKeyed(pool.all.remotes)
    ensures pool.all.locals.Keys !! pool.all.remotes.Keys
  {
  }

  lemma StepMeans(remotes: Known, tracked: multiset<Transaction>, past: Past)
    requires InStep(remotes, tracked, past)
    ensures Prices.Tracks(remotes, tracked) && (past.once ==> TrackedOnce(remotes, tracked))
  {
  }

  lemma StepSubmitted(remotes: Known, tracked: multiset<Transaction>, past: Past, tx: Transaction, local: bool)
    requires InStep(remotes, tracked, past)
    ensures InStep(remotes, tracked, Submitted(past, tx, local))
  {
  }

  /** Asks the price heaps what to drop if the pool is full, and drops it. The heaps need not be told of that. */
  method MakeRoomPriced(pool: TxPool, list: Prices.TxPricedList, tx: Transaction, local: bool, now: nat,
                        ghost past: Past)
    returns (err: Option<PoolError>, ghost advice: PriceAdvice, ghost drop: seq<Transaction>)
    requires pool.Valid() && tx.hash !in pool.all.Everything()
    requires list.Valid() && list.all == pool.all && InStep(pool.all.remotes, list.Tracked(), past)
    modifies pool`pending, pool`queue, pool`beats, pool`changesSinceReorg, pool.all, pool.pendingNonces,
             list`stales, list.urgent`heaps, list.floating`heaps
    ensures pool.Valid() && list.Valid() && InStep(pool.all.remotes, list.Tracked(), past)
    ensures Prices.Conserved(old(pool.all.remotes), old(list.Tracked()), list.Tracked(), drop)
    ensures var v, s := old(pool.Contents(now)), Submission(tx, None, advice);
            var isLocal := local || tx.from in v.exempt;
            && err == RoomError(Full(pool.config, v.Everything(), tx), isLocal, advice, v.changes, pool.config)
            && pool.Contents(now) == (if err.Some? then v else RoomMade(pool.config, v, s))
            && (err.None? ==> tx.hash !in pool.all.Everything())
            && DiscardedFor(pool.config, v, s, local, drop)
            && (MakesRoom(pool.config, v, s, local) ==>
                  || FoundRoom(pool.config, v.Everything(), tx, drop)
                  || (isLocal && GaveAll(v.remotes, old(list.Tracked()), drop)))
  {
    hide Prices.TxPricedList.Valid, Prices.TxPricedList.Tracked, Prices.Conserved, InStep, TxPool.Valid, RoomMade, Full,
         PartsOf, FoundRoom, GaveAll, Prices.Hashes, HashesOf, SlotSum, Members, RemovedAllNext;
    var isLocal := local || tx.from in pool.locals;
    ghost var v := pool.Contents(now);
    var a := PriceAdvice(false, [], false);
    drop := [];
    assert HashesOf([]) == [] by { NoHashesOf(); }
    KnownView(pool, now);
    PoolSlots(pool);
    Prices.NothingDropped(pool.all.remotes, list.Tracked());
    var full := pool.all.slots + tx.Slots() > pool.config.globalSlots + pool.config.globalQueue;
    IsFull(pool, tx, full);
    if full {
      a, drop := Consult(pool, list, tx, isLocal);
    }
    advice := a;
    ghost var s := Submission(tx, None, advice);
    StepDropped(v.remotes, old(list.Tracked()), list.Tracked(), drop, past);
    err := pool.MakeRoom(tx, isLocal, a, now);
    RoomLookup(pool.config, v, s, local, drop);
    NothingGone(v.remotes, drop);
  }

  lemma NothingGone(e: Known, drop: seq<Transaction>)
    ensures drop == [] ==> e - Prices.Hashes(drop) == e
  {
  }

  lemma NoHashesOf()
    ensures HashesOf([]) == []
  {
  }

  /** Puts a newcomer in its place and tells the price heaps: first of what it replaced, then of itself, then of the
      remotes that became local with it. */
  method PlacePriced(pool: TxPool, list: Prices.TxPricedList, tx: Transaction, local: bool, now: nat, ghost past: Past)
    returns (ok: bool, replaced: bool)
    requires pool.Valid() && Rated(pool.state.ctx, tx) && tx.hash !in pool.all.Everything()
    requires list.Valid() && list.all == pool.all && InStep(pool.all.remotes, list.Tracked(), past)
    modifies pool`pending, pool`queue, pool`beats, pool`locals, pool.all,
             list`stales, list.urgent`heaps, list.floating`heaps
    ensures pool.Valid() && list.Valid()
    ensures ok <==> Accepts(pool.state.ctx, Site(old(pool.Contents(now)), tx), tx, pool.config.priceBump)
    ensures pool.Contents(now) == if ok then Placed(old(pool.Contents(now)), tx, local) else old(pool.Contents(now))
    ensures replaced <==> ok && tx.nonce in Site(old(pool.Contents(now)), tx)
    ensures InStep(pool.all.remotes, list.Tracked(), Submitted(past, tx, local))
  {
    hide Prices.TxPricedList.Valid, Prices.TxPricedList.Tracked, InStep, TxPool.Valid, PartsOf, PartAt, ItemsAt, Swap,
         Exempted, Queued, Repriced, Submitted, Accepts, Swapped, Replaces, SameBut, Holds;
    var isLocal := local || tx.from in pool.locals;
    ghost var v := pool.Contents(now);
    KnownView(pool, now);
    PartAtItems(pool.pending, tx.from);
    PartAtItems(pool.queue, tx.from);
    StepSubmitted(v.remotes, list.Tracked(), past, tx, local);
    if tx.nonce in ItemsAt(pool.pending, tx.from) {
      AcceptsIs(pool.state.ctx, ItemsAt(pool.pending, tx.from), tx, pool.config.priceBump);
      ok := pool.ReplacePending(tx, isLocal, now);
      replaced := ok;
      if ok {
        RepricedRemotes(v, tx, isLocal);
        Tell(pool, list, tx, isLocal, true, v.remotes, past);
        StepLocal(pool.all.remotes, list.Tracked(), past, tx, local, isLocal);
      }
      return;
    }
    ok, replaced := pool.EnqueueNew(tx, isLocal, now);
    if ok {
      QueuedRemotes(v, tx, isLocal, replaced);
      Tell(pool, list, tx, isLocal, replaced, v.remotes, past);
      StepLocal(pool.all.remotes, list.Tracked(), past, tx, local, isLocal);
      if local && tx.from !in pool.locals {
        MarkLocalPriced(pool, list, tx.from, now, Submitted(past, tx, local));
      }
    }
  }

  lemma AcceptsIs(ctx: Context, m: Items, tx: Transaction, bump: nat)
    requires tx.nonce in m
    ensures Accepts(ctx, m, tx, bump) <==> Replaces(ctx, m[tx.nonce], tx, bump)
  {
  }

  lemma StepLocal(remotes: Known, tracked: multiset<Transaction>, past: Past, tx: Transaction, local: bool,
                  isLocal: bool)
    requires InStep(remotes, tracked, Submitted(past, tx, isLocal)) && (local ==> isLocal)
    ensures InStep(remotes, tracked, Submitted(past, tx, local))
  {
  }

  /** The remotes are those of before, less what was replaced, with `tx` if it is remote. */
  ghost predicate Replaced(remotes: Known, remotes': Known, tx: Transaction, isLocal: bool) {
    && remotes' == (if isLocal then remotes' - {tx.hash} else (remotes' - {tx.hash})[tx.hash := tx])
    && SubMap(remotes' - {tx.hash}, remotes)
  }

  lemma RepricedRemotes(v: View, tx: Transaction, isLocal: bool)
    requires tx.hash !in v.remotes
    ensures Replaced(v.remotes, Repriced(v, tx, isLocal).remotes, tx, isLocal)
  {
    hide PartAt;
  }

  lemma QueuedRemotes(v: View, tx: Transaction, isLocal: bool, replaced: bool)
    requires tx.hash !in v.remotes && replaced == (tx.nonce in PartAt(v.queue, tx.from))
    ensures Replaced(v.remotes, Queued(v, tx, isLocal).remotes, tx, isLocal)
  {
    hide PartAt;
  }

  /** Tells the price heaps that `tx` came, and that something left for it. */
  method Tell(ghost pool: TxPool, list: Prices.TxPricedList, tx: Transaction, isLocal: bool, replaced: bool,
              ghost remotes: Known, ghost past: Past)
    requires pool.Valid() && list.Valid() && list.all == pool.all && InStep(remotes, list.Tracked(), past)
    requires tx.hash !in remotes && Replaced(remotes, list.all.remotes, tx, isLocal)
    modifies list`stales, list.urgent`heaps, list.floating`heaps
    ensures list.Valid() && InStep(list.all.remotes, list.Tracked(), Submitted(past, tx, isLocal))
  {
    hide Prices.TxPricedList.Valid, Prices.TxPricedList.Tracked, Prices.Distinct, TxPool.Valid, InStep, SubMap,
         HashKeyed;
    var left := list.all.remotes - {tx.hash};
    LeftKeyed(pool, tx.hash);
    StepFewer(remotes, left, list.Tracked(), past);
    if replaced {
      ghost var tracked := list.Tracked();
      list.Removed(1, left);
      LeftSeen(left, tracked, past);
      StepHeard(left, left, tracked, list.Tracked(), past);
    }
    StepPut(left, list.Tracked(), tx, past);
    StepSubmitted(left, list.Tracked(), past, tx, true);
    ghost var tracked := list.Tracked();
    assert tracked + multiset{} == tracked;
    list.Put(tx, isLocal);
  }

  lemma LeftKeyed(pool: TxPool, h: Hash)
    requires pool.Valid()
    ensures HashKeyed(pool.all.remotes - {h})
  {
  }

  lemma LeftSeen(remotes: Known, tracked: multiset<Transaction>, past: Past)
    requires InStep(remotes, tracked, past)
    ensures SubMap(remotes, remotes) && remotes.Keys <= past.seen
  {
  }

  /** Exempts an account, and tells the price heaps how many remotes became local. */
  method MarkLocalPriced(pool: TxPool, list: Prices.TxPricedList, a: Address, ghost now: nat, ghost past: Past)
    requires pool.Valid() && list.Valid() && list.all == pool.all && InStep(pool.all.remotes, list.Tracked(), past)
    modifies pool`locals, pool.all, list`stales, list.urgent`heaps, list.floating`heaps
    ensures pool.Valid() && list.Valid() && InStep(pool.all.remotes, list.Tracked(), past)
    ensures pool.Contents(now) == Exempted(old(pool.Contents(now)), a)
  {
    hide Prices.TxPricedList.Valid, Prices.TxPricedList.Tracked, TxPool.Valid, InStep, SentBySome, PartsOf, HashKeyed;
    var migrated := pool.MarkLocal(a, now);
    StepFewer(old(pool.all.remotes), pool.all.remotes, list.Tracked(), past);
    Told(pool, list, migrated, past);
  }

  /** The price heaps are told how many transactions just left. */
  method Told(ghost pool: TxPool, list: Prices.TxPricedList, count: nat, ghost past: Past)
    requires pool.Valid() && list.Valid() && list.all == pool.all && InStep(pool.all.remotes, list.Tracked(), past)
    modifies list`stales, list.urgent`heaps, list.floating`heaps
    ensures list.Valid() && InStep(pool.all.remotes, list.Tracked(), past)
  {
    hide Prices.TxPricedList.Valid, Prices.TxPricedList.Tracked, TxPool.Valid, InStep, SubMap, HashKeyed;
    KnownView(pool, 0);
    LeftSeen(list.all.remotes, list.Tracked(), past);
    ghost var tracked := list.Tracked();
    list.Removed(count, list.all.remotes);
    StepHeard(list.all.remotes, list.all.remotes, tracked, list.Tracked(), past);
  }

  // ---------- Maintenance with the price heaps ----------

  /** The price heaps are told that `count` transactions left, at a time when those of `still` had not left yet. */
  datatype Notice = Notice(count: nat, still: set<Hash>)

  /** The remotes on the way from `before` to `after`. */
  function OnTheWay(before: Known, after: Known, still: set<Hash>): Known {
    map h | h in before && (h in after || h in still) :: before[h]
  }

  lemma Between(before: Known, after: Known, still: set<Hash>)
    requires SubMap(after, before) && HashKeyed(before)
    ensures HashKeyed(OnTheWay(before, after, still)) && SubMap(after, OnTheWay(before, after, still))
    ensures SubMap(OnTheWay(before, after, still), before)
  {
  }

  /** The price heaps are told of transactions that left, in whatever portions. */
  method Hear(list: Prices.TxPricedList, before: Known, notices: seq<Notice>, ghost past: Past)
    requires list.Valid() && HashKeyed(before) && SubMap(list.all.remotes, before)
    requires InStep(before, list.Tracked(), past)
    modifies list`stales, list.urgent`heaps, list.floating`heaps
    ensures list.Valid() && InStep(list.all.remotes, list.Tracked(), past)
  {
    hide Prices.TxPricedList.Valid, Prices.TxPricedList.Tracked, InStep, SubMap, HashKeyed, OnTheWay;
    StepFewer(before, list.all.remotes, list.Tracked(), past);
    LeftSeen(before, list.Tracked(), past);
    for i := 0 to |notices|
      invariant list.Valid() && InStep(list.all.remotes, list.Tracked(), past)
    {
      ghost var tracked := list.Tracked();
      var now := OnTheWay(before, list.all.remotes, notices[i].still);
      Between(before, list.all.remotes, notices[i].still);
      SubKeys(now, before);
      list.Removed(notices[i].count, now);
      StepHeard(list.all.remotes, now, tracked, list.Tracked(), past);
    }
  }

  lemma SubKeys(a: Known, b: Known)
    requires SubMap(a, b)
    ensures a.Keys <= b.Keys
  {
  }

  /** What is known after a maintenance run: rebuilt heaps have single entries. */
  function Maintained(past: Past, reset: Option<NewHead>): Past {
    if reset.None? then past
    else if reset.value.GivenUp? then past.(once := true)
    else
      var batch := reset.value.reinject;
      past.(once := true, seen := past.seen + (set i | 0 <= i < |batch| :: batch[i].tx.hash),
            used := past.used + PoolRuns.UsedBy(batch))
  }

  /** A maintenance run with the price heaps. After a reset they are rebuilt from the remotes, at new base fees where
      there is a `minimums` for the new head, so what they are told before that does not matter. `leaving` is what they
      are told while promoting, and `truncated` while truncating. */
  method MaintainPriced(pool: TxPool, list: Prices.TxPricedList, reset: Option<NewHead>,
                        minimums: Option<map<Option<Address>, nat>>, dirty: set<Address>, leaving: seq<Notice>,
                        truncated: seq<Notice>, now: nat, ghost past: Past)
    returns (promoted: seq<Transaction>, ghost t: Trace)
    requires pool.Valid() && pool.config.accountSlots >= 1 && PoolRuns.InUse(past.used, pool.all.Sides())
    requires PoolRuns.Workable(past.used, pool.state.ctx.rates.Keys, PoolRuns.Maintain(reset, dirty))
    requires list.Valid() && list.all == pool.all && InStep(pool.all.remotes, list.Tracked(), past)
    modifies pool, pool.all, pool.pendingNonces, list`stales, list.urgent, list.floating`heaps
    ensures pool.Valid() && list.Valid() && InStep(pool.all.remotes, list.Tracked(), Maintained(past, reset))
    ensures PoolRuns.InUse(Maintained(past, reset).used, pool.all.Sides())
    ensures pool.pendingNonces == old(pool.pendingNonces) || fresh(pool.pendingNonces)
    ensures pool.state == if Moves(reset) then reset.value.state else old(pool.state)
    ensures pool.locals == old(pool.locals)
    ensures Refreshed(pool.config, pool.state, pool.locals, reset, dirty, old(pool.Contents(now)),
                      old(pool.StageAt(now)), old(pool.NextNonces()), t, promoted)
    ensures PoolTruncation.FairlyTruncated(t.demoted.pending, pool.pending, pool.locals, pool.config.accountSlots,
                                           pool.config.globalSlots)
    ensures PoolTruncation.QueueTruncated(t.demoted.queue, pool.queue, pool.locals, pool.config.globalQueue,
                                          t.demoted.beats)
  {
    hide Prices.TxPricedList.Valid, Prices.TxPricedList.Tracked, InStep, TxPool.Valid, RatedAll, SubMap, Fewer,
         NextAfter, PoolTruncation.FairlyTruncated, PoolTruncation.QueueTruncated, PoolTruncation.Total, Maintained,
         PoolRuns.InUse, PoolRuns.Workable, Refreshed;
    promoted, t := RefreshPriced(pool, list, reset, minimums, dirty, leaving, now, past);
    var before := pool.all.remotes;
    ghost var z := pool.all.Sides();
    KnownView(pool, now);
    pool.Truncate(now);
    FewerRemotes(pool.all.Sides(), z);
    PoolRuns.FewerInUse(Maintained(past, reset).used, z, pool.all.Sides());
    Hear(list, before, truncated, Maintained(past, reset));
    pool.AdvanceNonces();
    ZeroChanges(pool);
  }

  lemma FewerRemotes(z: TwoSides, z0: TwoSides)
    requires Fewer(z, z0)
    ensures SubMap(z.remotes, z0.remotes)
  {
  }

  /** The first half of a run, up to and including the rebuild. */
  method RefreshPriced(pool: TxPool, list: Prices.TxPricedList, reset: Option<NewHead>,
                       minimums: Option<map<Option<Address>, nat>>, dirty: set<Address>, leaving: seq<Notice>, now: nat,
                       ghost past: Past)
    returns (promoted: seq<Transaction>, ghost t: Trace)
    requires pool.Valid() && PoolRuns.InUse(past.used, pool.all.Sides())
    requires PoolRuns.Workable(past.used, pool.state.ctx.rates.Keys, PoolRuns.Maintain(reset, dirty))
    requires list.Valid() && list.all == pool.all && InStep(pool.all.remotes, list.Tracked(), past)
    modifies pool, pool.all, pool.pendingNonces, list`stales, list.urgent, list.floating`heaps
    ensures pool.Valid() && list.Valid() && InStep(pool.all.remotes, list.Tracked(), Maintained(past, reset))
    ensures PoolRuns.InUse(Maintained(past, reset).used, pool.all.Sides())
    ensures pool.pendingNonces == old(pool.pendingNonces) || fresh(pool.pendingNonces)
    ensures pool.state == if Moves(reset) then reset.value.state else old(pool.state)
    ensures pool.locals == old(pool.locals)
    ensures Refreshed(pool.config, pool.state, pool.locals, reset, dirty, old(pool.Contents(now)),
                      old(pool.StageAt(now)), old(pool.NextNonces()), t, promoted)
    ensures t.demoted == pool.StageAt(now)
  {
    hide Prices.TxPricedList.Valid, Prices.TxPricedList.Tracked, InStep, TxPool.Valid, TxPool.Contents, RatedAll,
         SubMap, Fewer, PoolRuns.InUse, PoolRuns.UsedBy, PoolRuns.UsedAfter, Refreshed, StartOf, HashKeyed;
    KnownView(pool, now);
    PoolRuns.HeadRated(pool, reset, past.used);
    PoolRuns.SidesAre(pool, now);
    var before := pool.all.remotes;
    ghost var tracked := list.Tracked();
    ghost var v, s, nonces := pool.Contents(now), pool.StageAt(now), pool.NextNonces();
    var seen;
    promoted, seen, t := pool.Refresh(reset, dirty, {}, now);
    ghost var added := t.added;
    PoolRuns.StartInUse(pool.config, pool.state, pool.locals, reset, dirty, v, s, nonces, t, promoted, past.used);
    PoolRuns.FewerInUse(PoolRuns.UsedAfter(past.used, PoolRuns.Maintain(reset, dirty)),
                        StartOf(reset, added, v).Sides(), pool.all.Sides());
    StartSeen(pool.config, pool.state, pool.locals, reset, dirty, v, s, nonces, t, promoted, tracked, past);
    FewerRemotes(pool.all.Sides(), StartOf(reset, added, v).Sides());
    UsedThen(past, reset, dirty);
    StartIsOld(reset, added, v);
    if reset.Some? {
      KnownView(pool, now);
      PoolSlots(pool);
      SubKeys(pool.all.remotes, StartOf(reset, added, v).remotes);
      Rebuild(list, pool.state.ctx, minimums, Maintained(past, reset));
    } else {
      Hear(list, before, leaving, past);
    }
  }

  lemma StartIsOld(reset: Option<NewHead>, added: Readded, v: View)
    ensures !Moves(reset) ==> StartOf(reset, added, v) == v
  {
  }

  lemma UsedThen(past: Past, reset: Option<NewHead>, dirty: set<Address>)
    ensures Maintained(past, reset).used == PoolRuns.UsedAfter(past.used, PoolRuns.Maintain(reset, dirty))
  {
  }

  /** The remotes that promotion starts from were all handed in. */
  lemma StartSeen(config: Config, st: ChainState, locals: set<Address>, reset: Option<NewHead>, dirty: set<Address>,
                  v: View, s: Stage, nonces: map<Address, nat>, t: Trace, txs: seq<Transaction>,
                  tracked: multiset<Transaction>, past: Past)
    requires InStep(v.remotes, tracked, past) && Refreshed(config, st, locals, reset, dirty, v, s, nonces, t, txs)
    ensures StartOf(reset, t.added, v).remotes.Keys <= Maintained(past, reset).seen
  {
    hide PartsOf, NoneEmpty, Consistent, ResetNonce, StageOk, PromotedStage, DemotedStage, ReadyInStage;
    var added := t.added;
    if Moves(reset) {
      AddedSeen(config, reset.value.state.ctx, added.views, reset.value.reinject, added.errs, added.replaced, past,
                |reset.value.reinject|);
    }
  }

  lemma {:induction false} AddedSeen(config: Config, ctx: Context, views: seq<View>, batch: seq<Submission>,
                                     errs: seq<Option<PoolError>>, replaced: seq<bool>, past: Past, k: nat)
    requires AddedInTurn(config, ctx, views, batch, false, errs, replaced) && k <= |batch|
    requires views[0].remotes.Keys <= past.seen
    ensures views[k].remotes.Keys <= past.seen + (set i | 0 <= i < |batch| :: batch[i].tx.hash)
    decreases k
  {
    hide Added;
    if k > 0 {
      AddedSeen(config, ctx, views, batch, errs, replaced, past, k - 1);
      assert Outcome(views[k], errs[k - 1], replaced[k - 1]) == Added(config, ctx, views[k - 1], batch[k - 1], false);
      AddedBrings(config, ctx, views[k - 1], batch[k - 1], false);
      assert batch[k - 1].tx.hash in set i | 0 <= i < |batch| :: batch[i].tx.hash;
    }
  }

  /** Rebuilds the heaps from the remotes. */
  method Rebuild(list: Prices.TxPricedList, ctx: Context, minimums: Option<map<Option<Address>, nat>>, ghost past: Past)
    requires list.Valid() && list.all.Valid() && list.all.remotes.Keys <= past.seen && past.once
    modifies list`stales, list.urgent, list.floating`heaps
    ensures list.Valid() && InStep(list.all.remotes, list.Tracked(), past)
  {
    StepRebuilt(list.all.remotes, past.seen, past.used);
    hide Prices.TxPricedList.Valid, Prices.TxPricedList.Tracked, InStep, Prices.NoneDearer, Prices.Priceable;
    if minimums.Some? {
      list.SetBaseFee(ctx, minimums.value);
    } else {
      HasNative(list);
      list.Reheap(list.all.remotes);
    }
  }

  lemma HasNative(list: Prices.TxPricedList)
    requires list.Valid()
    ensures list.urgent != list.floating && None in list.urgent.heaps && None in list.floating.heaps
  {
  }

  method ZeroChanges(pool: TxPool)
    requires pool.Valid()
    modifies pool`changesSinceReorg
    ensures pool.Valid() && pool.changesSinceReorg == 0
  {
    pool.changesSinceReorg := 0;
  }

  // ---------- Runs ----------

  datatype Op =
    | Submit(tx: Transaction, local: bool, invalid: Option<nat>)
    | Maintain(reset: Option<NewHead>, minimums: Option<map<Option<Address>, nat>>, dirty: set<Address>,
               leaving: seq<Notice>, truncated: seq<Notice>)
    | Evict(lifetime: nat, notices: seq<Notice>)
    | Remove(hash: Hash)

  /** The same operation without its effect on the price heaps. */
  function Plain(op: Op): PoolRuns.Op {
    match op
    case Submit(tx, local, invalid) => PoolRuns.Submit([Submission(tx, invalid, PriceAdvice(false, [], false))], local)
    case Maintain(reset, _, dirty, _, _) => PoolRuns.Maintain(reset, dirty)
    case Evict(lifetime, _) => PoolRuns.Evict(lifetime)
    case Remove(hash) => PoolRuns.Remove(hash)
  }

  function AllPlain(ops: seq<Op>): seq<PoolRuns.Op> {
    seq(|ops|, i requires 0 <= i < |ops| => Plain(ops[i]))
  }

  /** What is known after an operation. */
  function After(past: Past, op: Op): Past {
    match op
    case Submit(tx, local, _) => Submitted(past, tx, local).(used := PoolRuns.UsedAfter(past.used, Plain(op)))
    case Maintain(reset, _, _, _, _) => Maintained(past, reset)
    case _ => past
  }

  /** What is known after the first operations of a run. */
  function AfterAll(ops: seq<Op>): Past {
    if ops == [] then Past(true, {}, {}) else After(AfterAll(ops[..|ops| - 1]), ops[|ops| - 1])
  }

  /** What an operation came to: whether a remote newcomer was accepted, and the slots taken afterwards. */
  datatype Entry = Entry(newRemote: bool, slots: int)

  /** Whatever the pool does, the price heaps stay in step with it. And as long as it is sure that no remote has more
      than one entry there, a remote newcomer never makes the pool outgrow its slots. */
  method Perform(pool: TxPool, list: Prices.TxPricedList, op: Op, now: nat, ghost past: Past) returns (entry: Entry)
    requires pool.Valid() && pool.config.accountSlots >= 1 && PoolRuns.InUse(past.used, pool.all.Sides())
    requires PoolRuns.Workable(past.used, pool.state.ctx.rates.Keys, Plain(op))
    requires list.Valid() && list.all == pool.all && InStep(pool.all.remotes, list.Tracked(), past)
    modifies pool, pool.all, pool.pendingNonces, list`stales, list.urgent, list.floating`heaps
    ensures pool.Valid() && list.Valid() && InStep(pool.all.remotes, list.Tracked(), After(past, op))
    ensures PoolRuns.InUse(After(past, op).used, pool.all.Sides())
    ensures pool.pendingNonces == old(pool.pendingNonces) || fresh(pool.pendingNonces)
    ensures pool.state.ctx.rates.Keys == PoolRuns.KeysAfter(old(pool.state.ctx.rates.Keys), Plain(op))
    ensures After(past, op).used == PoolRuns.UsedAfter(past.used, Plain(op))
    ensures entry.slots == pool.all.slots
    ensures entry.newRemote && past.once ==> entry.slots <= pool.config.globalSlots + pool.config.globalQueue
    ensures entry.newRemote ==> op.Submit? && !op.local && op.tx.from !in old(pool.locals)
    ensures op.Submit? && !op.local && op.tx.from !in old(pool.locals) ==>
              (entry.newRemote <==> op.tx.hash !in old(pool.all.Everything()) && op.tx.hash in pool.all.Everything())
  {
    hide Prices.TxPricedList.Valid, Prices.TxPricedList.Tracked, InStep, TxPool.Valid, Fewer, SubMap, RemovedNext,
         Removed, RemovedFrom, PoolRuns.InUse, PoolRuns.UsedBy, Submitted, Maintained, Refreshed, HashKeyed,
         PoolTruncation.FairlyTruncated, PoolTruncation.QueueTruncated;
    entry := Entry(false, pool.all.slots);
    match op {
      case Submit(tx, local, invalid) =>
        entry := SubmitPriced(pool, list, tx, local, invalid, now, past);
      case Maintain(reset, minimums, dirty, leaving, truncated) =>
        var promoted, t := MaintainPriced(pool, list, reset, minimums, dirty, leaving, truncated, now, past);
        UsedThen(past, reset, dirty);
      case Evict(lifetime, notices) =>
        EvictPriced(pool, list, lifetime, notices, now, past);
      case Remove(hash) =>
        RemovePriced(pool, list, hash, now, past);
    }
    entry := entry.(slots := pool.all.slots);
  }

  method EvictPriced(pool: TxPool, list: Prices.TxPricedList, lifetime: nat, notices: seq<Notice>, now: nat,
                     ghost past: Past)
    requires pool.Valid() && PoolRuns.InUse(past.used, pool.all.Sides())
    requires list.Valid() && list.all == pool.all && InStep(pool.all.remotes, list.Tracked(), past)
    modifies pool`pending, pool`queue, pool`beats, pool.all, pool.pendingNonces,
             list`stales, list.urgent`heaps, list.floating`heaps
    ensures pool.Valid() && list.Valid() && InStep(pool.all.remotes, list.Tracked(), past)
    ensures PoolRuns.InUse(past.used, pool.all.Sides())
  {
    hide Prices.TxPricedList.Valid, Prices.TxPricedList.Tracked, InStep, TxPool.Valid, Fewer, SubMap, PoolRuns.InUse,
         HashKeyed, ItemsAt;
    var before := pool.all.remotes;
    KnownView(pool, now);
    pool.EvictStale(lifetime, now);
    FewerRemotes(pool.all.Sides(), old(pool.all.Sides()));
    Hear(list, before, notices, past);
    PoolRuns.FewerInUse(past.used, old(pool.all.Sides()), pool.all.Sides());
  }

  method SubmitPriced(pool: TxPool, list: Prices.TxPricedList, tx: Transaction, local: bool, invalid: Option<nat>,
                      now: nat, ghost past: Past)
    returns (entry: Entry)
    requires pool.Valid() && PoolRuns.InUse(past.used, pool.all.Sides())
    requires PoolRuns.Workable(past.used, pool.state.ctx.rates.Keys, Plain(Submit(tx, local, invalid)))
    requires list.Valid() && list.all == pool.all && InStep(pool.all.remotes, list.Tracked(), past)
    modifies pool`pending, pool`queue, pool`beats, pool`locals, pool`changesSinceReorg, pool.all, pool.pendingNonces,
             list`stales, list.urgent`heaps, list.floating`heaps
    ensures pool.Valid() && list.Valid()
    ensures InStep(pool.all.remotes, list.Tracked(), After(past, Submit(tx, local, invalid)))
    ensures PoolRuns.InUse(After(past, Submit(tx, local, invalid)).used, pool.all.Sides())
    ensures entry.slots == pool.all.slots
    ensures entry.newRemote && past.once ==> entry.slots <= pool.config.globalSlots + pool.config.globalQueue
    ensures entry.newRemote <==> !local && tx.from !in old(pool.locals)
                                 && tx.hash !in old(pool.all.Everything()) && tx.hash in pool.all.Everything()
  {
    hide Prices.TxPricedList.Valid, Prices.TxPricedList.Tracked, InStep, TxPool.Valid, PoolRuns.InUse, SlotSum, PartsOf,
         Added;
    ghost var s0 := Submission(tx, invalid, PriceAdvice(false, [], false));
    PoolRuns.BatchRated(pool.state.ctx, [s0], 0);
    var isLocal := local || tx.from in pool.locals;
    KnownView(pool, now);
    var replaced, err, advice := AddPriced(pool, list, tx, local, invalid, now, past);
    KnownView(pool, now);
    PoolSlots(pool);
    OneInUse(pool.config, pool.state.ctx, old(pool.Contents(now)), Submission(tx, invalid, advice), local, past.used);
    StepUsed(pool.all.remotes, list.Tracked(), Submitted(past, tx, local),
             PoolRuns.UsedAfter(past.used, Plain(Submit(tx, local, invalid))));
    NewIsKnown(pool.config, pool.state.ctx, old(pool.Contents(now)), Submission(tx, invalid, advice), local);
    entry := Entry(err.None? && !isLocal, pool.all.slots);
  }

  lemma StepUsed(remotes: Known, tracked: multiset<Transaction>, past: Past, used: set<Address>)
    requires InStep(remotes, tracked, past)
    ensures InStep(remotes, tracked, past.(used := used))
  {
  }

  lemma OneInUse(config: Config, ctx: Context, v: View, s: Submission, local: bool, used: set<Address>)
    requires PoolRuns.InUse(used, v.Sides())
    ensures PoolRuns.InUse(used + PoolRuns.UsedBy([s]), Added(config, ctx, v, s, local).view.Sides())
    ensures PoolRuns.UsedBy([s]) == PoolRuns.UsedBy([s.(advice := PriceAdvice(false, [], false))])
  {
    hide Added;
    AddedBrings(config, ctx, v, s, local);
    var s' := s.(advice := PriceAdvice(false, [], false));
    assert [s][0] == s && [s'][0] == s';
    assert s.invalid.None? ==> PoolRuns.UsesOnly(PoolRuns.UsedBy([s]), s.tx);
  }

  /** A newcomer is accepted exactly when it is then known and was not before. */
  lemma NewIsKnown(config: Config, ctx: Context, v: View, s: Submission, local: bool)
    ensures var o := Added(config, ctx, v, s, local);
            o.err.None? <==> s.tx.hash !in v.Everything() && s.tx.hash in o.view.Everything()
  {
    hide Accepts, Site, RoomError, Full, Placed, RemovedAll;
    RemovedAllFewer(v, s.advice.drop);
    if s.tx.hash !in v.Everything() { PlacedKnows(RoomMade(config, v, s), s.tx, local); }
  }

  lemma PlacedKnows(v: View, tx: Transaction, local: bool)
    requires tx.hash !in v.Everything()
    ensures tx.hash in Placed(v, tx, local).Everything()
  {
    hide Placed, Site;
    PlacedLookup(v, tx, local);
  }

  method RemovePriced(pool: TxPool, list: Prices.TxPricedList, hash: Hash, now: nat, ghost past: Past)
    requires pool.Valid() && PoolRuns.InUse(past.used, pool.all.Sides())
    requires list.Valid() && list.all == pool.all && InStep(pool.all.remotes, list.Tracked(), past)
    modifies pool`pending, pool`queue, pool`beats, pool.all, pool.pendingNonces,
             list`stales, list.urgent`heaps, list.floating`heaps
    ensures pool.Valid() && list.Valid() && InStep(pool.all.remotes, list.Tracked(), past)
    ensures PoolRuns.InUse(past.used, pool.all.Sides())
  {
    hide Prices.TxPricedList.Valid, Prices.TxPricedList.Tracked, InStep, TxPool.Valid, Fewer, SubMap, RemovedNext,
         Removed, RemovedFrom, PoolRuns.InUse, PartsOf, HashKeyed;
    KnownView(pool, now);
    PoolSlots(pool);
    var known := pool.all.Get(hash);
    FewerLess(pool.all.Sides(), hash);
    pool.RemoveTx(hash, now);
    FewerRemotes(pool.all.Sides(), old(pool.all.Sides()));
    StepFewer(old(pool.all.remotes), pool.all.remotes, list.Tracked(), past);
    PoolRuns.FewerInUse(past.used, old(pool.all.Sides()), pool.all.Sides());
    if known.Some? {
      Told(pool, list, 1, past);
    }
  }

  /** A remote newcomer left the pool within its slots, unless an entry may have been double. */
  ghost predicate WithinSlots(config: Config, ops: seq<Op>, i: nat, entry: Entry)
    requires i < |ops|
  {
    entry.newRemote ==>
      && ops[i].Submit? && !ops[i].local
      && (AfterAll(ops[..i]).once ==> entry.slots <= config.globalSlots + config.globalQueue)
  }

  lemma EntryWithin(config: Config, ops: seq<Op>, i: nat, entry: Entry)
    requires i < |ops| && (entry.newRemote ==> ops[i].Submit? && !ops[i].local)
    requires entry.newRemote && AfterAll(ops[..i]).once ==> entry.slots <= config.globalSlots + config.globalQueue
    ensures WithinSlots(config, ops, i, entry)
  {
  }

  lemma PastNone()
    ensures InStep(map[], multiset{}, Past(true, {}, {})) && PoolRuns.InUse({}, TwoSides(map[], map[]))
  {
  }

  /** Over every run from the empty pool the lists, the lookup and the price heaps stay in step. And a remote newcomer
      makes the pool outgrow its slots only if, since the last rebuild, a transaction was handed in as a remote one that
      had been handed in before. */
  method Play(config: Config, state: ChainState, locals: set<Address>, minimums: map<Option<Address>, nat>,
              ops: seq<Op>)
    returns (pool: TxPool, list: Prices.TxPricedList, log: seq<Entry>)
    requires PoolRuns.AllWorkable({}, state.ctx.rates.Keys, AllPlain(ops))
    ensures fresh(pool) && pool.Valid() && list.Valid() && list.all == pool.all
    ensures InStep(pool.all.remotes, list.Tracked(), AfterAll(ops))
    ensures |log| == |ops| && forall i | 0 <= i < |ops| :: WithinSlots(Sanitize(config), ops, i, log[i])
  {
    hide TxPool.Valid, PoolRuns.Workable, Prices.TxPricedList.Valid, Prices.TxPricedList.Tracked, Sanitize, WithinSlots,
         PoolRuns.InUse, InStep, After, PoolRuns.UsedAfter, PoolRuns.KeysAfter, Plain;
    PastNone();
    pool := new TxPool(config, state, locals);
    list := new Prices.TxPricedList(pool.all, state.ctx, minimums, pool.config.globalSlots);
    log := [];
    for i := 0 to |ops|
      invariant fresh(pool) && fresh(pool.all) && fresh(pool.pendingNonces) && pool.Valid()
      invariant pool.config.accountSlots >= 1 && pool.config == Sanitize(config)
      invariant fresh(list) && fresh(list.urgent) && fresh(list.floating) && list.Valid() && list.all == pool.all
      invariant InStep(pool.all.remotes, list.Tracked(), AfterAll(ops[..i]))
      invariant PoolRuns.InUse(AfterAll(ops[..i]).used, pool.all.Sides())
      invariant PoolRuns.AllWorkable(AfterAll(ops[..i]).used, pool.state.ctx.rates.Keys, AllPlain(ops[i..]))
      invariant |log| == i && forall j | 0 <= j < i :: WithinSlots(pool.config, ops, j, log[j])
    {
      assert AllPlain(ops[i..])[1..] == AllPlain(ops[i + 1..]);
      assert AllPlain(ops[i..])[0] == Plain(ops[i]);
      assert ops[..i + 1][..i] == ops[..i];
      var entry := Perform(pool, list, ops[i], i, AfterAll(ops[..i]));
      EntryWithin(pool.config, ops, i, entry);
      log := log + [entry];
    }
    assert ops[..|ops|] == ops;
  }
}
