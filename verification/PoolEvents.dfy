/** What a maintenance run announces: queued events that are still current, and what it promoted. */
module PoolEvents {
  import opened Options
  import opened Types
  import opened NonceMap
  import opened ReorgSchedulers
  import opened Lookup
  import opened PoolTruncation
  import opened PoolViews
  import opened PoolStages
  import Pool

  ghost predicate EventsOk(events: Events) {
    forall a, n | a in events && n in events[a] :: events[a][n].from == a && events[a][n].nonce == n
  }

  /** A run is handed well-kept events, the latest for each account and nonce. */
  lemma {:induction false} HandedEvents(txs: seq<Transaction>)
    ensures EventsOk(EventsOf(txs)) && forall tx :: Held(EventsOf(txs), tx) <==> Latest(txs, tx)
    decreases |txs|
  {
    if txs != [] { HandedEvents(txs[..|txs| - 1]); }
    forall tx
      ensures Held(EventsOf(txs), tx) <==> Latest(txs, tx)
    {
      EventsKept(map[], txs, tx);
    }
  }

  /** The events whose nonces the new state has not passed. */
  function Current(events: Events, nonces: map<Address, nat>): Events
    requires events.Keys <= nonces.Keys
  {
    map a | a in events && From(events[a], nonces[a]) != map[] :: From(events[a], nonces[a])
  }

  /** What is announced: each promoted transaction, and each queued one that is current and was not promoted over. */
  ghost predicate Sent(events: Events, nonces: Option<map<Address, nat>>, promoted: seq<Transaction>, tx: Transaction)
    requires nonces.Some? ==> events.Keys <= nonces.value.Keys
  {
    || Latest(promoted, tx)
    || (Held(events, tx) && (nonces.Some? ==> nonces.value[tx.from] <= tx.nonce) && NoneAt(promoted, tx))
  }

  /** Of one account, lower nonces first, and each once. */
  ghost predicate InOrder(txs: seq<Transaction>) {
    forall i, j | 0 <= i < j < |txs| && txs[i].from == txs[j].from :: txs[i].nonce < txs[j].nonce
  }

  /** The announcement of a run: after a reset, events below the new nonces are dropped first; then the promoted ones
      are put in, and everything is sent account by account. */
  method Announcement(events: Events, nonces: Option<map<Address, nat>>, promoted: seq<Transaction>)
    returns (sent: seq<Transaction>)
    requires EventsOk(events) && (nonces.Some? ==> events.Keys <= nonces.value.Keys)
    ensures InOrder(sent) && forall tx :: tx in sent <==> Sent(events, nonces, promoted, tx)
  {
    hide EventsOk, Latest, NoneAt, Current, InOrder;
    var current := events;
    if nonces.Some? {
      current := DropStale(events, nonces.value);
      CurrentHeld(events, nonces.value);
    }
    var all := current;
    for i := 0 to |promoted|
      invariant EventsOk(all) && all == PutEvents(current, promoted[..i])
    {
      assert promoted[..i + 1][..i] == promoted[..i];
      PutKeepsOk(all, promoted[i]);
      all := PutEvent(all, promoted[i]);
    }
    assert promoted[..|promoted|] == promoted;
    sent := FlattenAll(all);
    forall tx
      ensures tx in sent <==> Sent(events, nonces, promoted, tx)
    {
      EventsKept(current, promoted, tx);
    }
  }

  /** The accounts that a batch names. */
  ghost function Named(batch: Batch): set<Address> {
    var dirty := DirtyOf(batch.requests);
    if dirty.Some? then dirty.value else {}
  }

  /** An account has at most one promoted transaction for a nonce, so each promoted one is the latest. */
  lemma PromotedIsLatest(config: Config, st: ChainState, locals: set<Address>, reset: Option<NewHead>,
                         dirty: set<Address>, v: View, s: Stage, nonces: map<Address, nat>, t: Trace,
                         promoted: seq<Transaction>)
    requires Refreshed(config, st, locals, reset, dirty, v, s, nonces, t, promoted)
    ensures forall tx :: Latest(promoted, tx) <==> tx in promoted
  {
    hide StageOk, ResetStage, PromotedStage, DemotedStage;
    forall tx | tx in promoted
      ensures Latest(promoted, tx)
    {
      LatestOfSlot(promoted, tx, |promoted|);
    }
  }

  lemma {:induction false} LatestOfSlot(txs: seq<Transaction>, tx: Transaction, n: nat)
    requires n <= |txs| && tx in txs[..n] && forall x | x in txs && SameSlot(x, tx) :: x == tx
    requires forall j | n <= j < |txs| :: !SameSlot(txs[j], tx)
    ensures Latest(txs, tx)
    decreases n
  {
    if !SameSlot(txs[n - 1], tx) {
      LatestOfSlot(txs, tx, n - 1);
    } else {
      assert txs[n - 1] in txs;
    }
  }

  /** A whole background run, launched for a batch of requests: what it announces is what it promoted, and the latest of
      the batch's events for their account and nonce that it did not promote over and, after a reset, whose nonces have
      not been passed. */
  method Serve(pool: Pool.TxPool, run: Run, ghost batch: Batch, reset: Option<NewHead>, now: nat)
    returns (sent: seq<Transaction>, promoted: seq<Transaction>, seen: map<Address, nat>, ghost t: Trace)
    requires Serves(run, batch)
    requires reset.Some? <==> exists i | 0 <= i < |batch.requests| :: batch.requests[i].ResetRequest?
    requires pool.Valid() && pool.config.accountSlots >= 1
    requires Moves(reset) ==>
               && Pool.RatedAll(reset.value.state.ctx, pool.all.Everything())
               && forall i | 0 <= i < |reset.value.reinject| ::
                    reset.value.reinject[i].RatedIfValid(reset.value.state.ctx)
    modifies pool, pool.all, pool.pendingNonces
    ensures pool.Valid()
    ensures Refreshed(pool.config, pool.state, pool.locals, reset, Named(batch), old(pool.Contents(now)),
                      old(pool.StageAt(now)), old(pool.NextNonces()), t, promoted)
    ensures reset.Some? ==>
              seen == map a | a in run.events ::
                        NonceThen(pool.config, reset, t, a, old(pool.pendingNonces.Nonce(a)))
    ensures forall tx :: tx in sent <==>
              || tx in promoted
              || (Latest(batch.txs, tx) && NoneAt(promoted, tx)
                  && (reset.Some? ==> tx.from in seen && seen[tx.from] <= tx.nonce))
    ensures InOrder(sent)
  {
    hide Pool.TxPool.Valid, Pool.TxPool.Contents, Pool.RatedAll, Refreshed, AllExecutable, Affordable, FairlyTruncated,
         QueueTruncated, Total, Pool.NextAfter, InOrder, Latest, NoneAt, EventsOk, EventsOf, ResetOf, DirtyOf,
         NonceThen, Fewer;
    NoReset(batch.requests);
    HandedEvents(batch.txs);
    var dirty := if run.dirty.Some? then run.dirty.value else {};
    promoted, seen, t := pool.RunReorg(reset, dirty, run.events.Keys, now);
    PromotedIsLatest(pool.config, pool.state, pool.locals, reset, dirty, old(pool.Contents(now)),
                     old(pool.StageAt(now)), old(pool.NextNonces()), t, promoted);
    sent := Announcement(run.events, if reset.Some? then Some(seen) else None, promoted);
  }

  lemma CurrentHeld(events: Events, nonces: map<Address, nat>)
    requires EventsOk(events) && events.Keys <= nonces.Keys
    ensures EventsOk(Current(events, nonces))
    ensures forall tx :: Held(Current(events, nonces), tx) <==> Held(events, tx) && nonces[tx.from] <= tx.nonce
  {
    forall tx
      ensures Held(Current(events, nonces), tx) <==> Held(events, tx) && nonces[tx.from] <= tx.nonce
    {
      if Held(events, tx) && nonces[tx.from] <= tx.nonce {
        assert tx.nonce in From(events[tx.from], nonces[tx.from]);
      }
    }
  }

  lemma PutKeepsOk(events: Events, tx: Transaction)
    requires EventsOk(events)
    ensures EventsOk(PutEvent(events, tx))
  {
  }

  /** Discards the events that became stale, and accounts left without any. */
  method DropStale(events: Events, nonces: map<Address, nat>) returns (left: Events)
    requires events.Keys <= nonces.Keys
    ensures left == Current(events, nonces)
  {
    left := events;
    var todo := events.Keys;
    while todo != {}
      invariant todo <= events.Keys
      invariant forall a :: a in left <==> a in events && (a in todo || From(events[a], nonces[a]) != map[])
      invariant forall a | a in left :: left[a] == if a in todo then events[a] else From(events[a], nonces[a])
      decreases |todo|
    {
      var a :| a in todo;
      left := left[a := From(left[a], nonces[a])];
      if left[a] == map[] {
        left := left - {a};
      }
      todo := todo - {a};
    }
  }

  /** All events, account by account in no particular order, each account's by nonce. */
  method FlattenAll(events: Events) returns (txs: seq<Transaction>)
    requires EventsOk(events)
    ensures InOrder(txs) && forall tx :: tx in txs <==> Held(events, tx)
  {
    txs := [];
    var todo := events.Keys;
    while todo != {}
      invariant todo <= events.Keys && InOrder(txs)
      invariant forall tx :: tx in txs <==> Held(events, tx) && tx.from !in todo
      decreases |todo|
    {
      var a :| a in todo;
      var mine := Flatten(events[a]);
      OneAccountMore(events, todo, a, txs, mine);
      txs := txs + mine;
      todo := todo - {a};
    }
  }

  lemma OneAccountMore(events: Events, todo: set<Address>, a: Address, txs: seq<Transaction>, mine: seq<Transaction>)
    requires EventsOk(events) && todo <= events.Keys && a in todo && InOrder(txs) && IsListing(events[a], mine)
    requires forall tx :: tx in txs <==> Held(events, tx) && tx.from !in todo
    ensures InOrder(txs + mine)
    ensures forall tx :: tx in txs + mine <==> Held(events, tx) && tx.from !in todo - {a}
  {
    ListingMembers(events[a], mine);
    forall tx
      ensures tx in txs + mine <==> Held(events, tx) && tx.from !in todo - {a}
    {
      assert tx in txs + mine <==> tx in txs || tx in mine;
    }
    assert forall k | 0 <= k < |txs| :: txs[k] in txs && txs[k].from != a;
    assert forall k | 0 <= k < |mine| :: mine[k] in mine && mine[k].from == a;
    OrderedAppend(txs, mine, a);
  }

  lemma OrderedAppend(txs: seq<Transaction>, mine: seq<Transaction>, a: Address)
    requires InOrder(txs) && Ascending(mine)
    requires forall k | 0 <= k < |txs| :: txs[k].from != a
    requires forall k | 0 <= k < |mine| :: mine[k].from == a
    ensures InOrder(txs + mine)
  {
  }

  lemma ListingMembers(m: Items, s: seq<Transaction>)
    requires IsListing(m, s)
    ensures forall tx :: tx in s <==> tx.nonce in m && m[tx.nonce] == tx
  {
    forall tx: Transaction | tx.nonce in m && m[tx.nonce] == tx
      ensures tx in s
    {
      var i := CollectsMember(m, s, tx.nonce);
    }
  }

  /** One account's events by nonce. */
  method Flatten(m: Items) returns (txs: seq<Transaction>)
    requires Keyed(m)
    ensures IsListing(m, txs)
  {
    txs := [];
    var todo := m;
    Pool.PromotingNone(m);
    while todo != map[]
      invariant Pool.Promoting(m, todo, txs)
      decreases |todo|
    {
      assert todo.Keys != {};
      var n := Min(todo.Keys);
      Pool.PromotingMore(m, todo, txs, n);
      txs := txs + [todo[n]];
      todo := todo - {n};
    }
    Pool.PromotedAll(m, txs);
  }
}
