/** What keeps the pool's redundant structures in step: the pending lists, the queued lists and the lookup. */
module PoolInvariant {
  import opened Options
  import opened Types
  import opened NonceMap
  import opened TxLists
  import Currency
  import opened Lookup

  type Lists = map<Address, List>

  function ItemsAt(m: Lists, a: Address): Items {
    if a in m then m[a].items else map[]
  }

  function At(m: Items, n: nat): Option<Transaction> {
    if n in m then Some(m[n]) else None
  }

  predicate Holds(m: Items, tx: Transaction) {
    tx.nonce in m && m[tx.nonce] == tx
  }

  /** Transactions of one account that have left one list and not yet reached the next. */
  datatype Transit = Transit(account: Address, items: Items)

  const NO_TRANSIT := Transit(0, map[])

  predicate Located(p: Lists, q: Lists, t: Transit, tx: Transaction) {
    || Holds(ItemsAt(p, tx.from), tx)
    || Holds(ItemsAt(q, tx.from), tx)
    || (tx.from == t.account && Holds(t.items, tx))
  }

  ghost predicate SentBy(m: Items, a: Address) {
    forall n | n in m :: m[n].from == a
  }

  ghost predicate ListFor(l: List, a: Address, strict: bool) {
    l.strict == strict && ListOk(l) && SentBy(l.items, a)
  }

  ghost predicate ListsOk(m: Lists, strict: bool) {
    forall a | a in m :: ListFor(m[a], a, strict)
  }

  ghost predicate Disjoint(p: Items, q: Items) {
    forall n | n in p :: n !in q
  }

  ghost predicate AllDisjoint(p: Lists, q: Lists) {
    forall a: Address :: Disjoint(ItemsAt(p, a), ItemsAt(q, a))
  }

  /** The lookup knows exactly the listed transactions and those in transit. */
  ghost predicate Indexed(p: Lists, q: Lists, e: Known, t: Transit) {
    forall tx: Transaction :: InLookup(e, tx) <==> Located(p, q, t, tx)
  }

  ghost predicate TransitOk(p: Lists, q: Lists, t: Transit) {
    && Keyed(t.items) && SentBy(t.items, t.account)
    && Disjoint(t.items, ItemsAt(q, t.account))
  }

  ghost predicate Consistent(p: Lists, q: Lists, e: Known, t: Transit) {
    && ListsOk(p, true) && ListsOk(q, false) && AllDisjoint(p, q)
    && HashKeyed(e) && TransitOk(p, q, t) && Indexed(p, q, e, t)
  }

  ghost predicate NoneEmpty(m: Lists) {
    forall a | a in m :: m[a].items != map[]
  }

  /** Every account with something queued has a heartbeat. */
  ghost predicate Beating(q: Lists, beats: map<Address, nat>) {
    forall a | a in q :: a in beats
  }

  lemma StillBeating(q: Lists, beats: map<Address, nat>, a: Address, now: nat)
    requires Beating(q, beats)
    ensures Beating(q, beats[a := now])
  {
  }

  /** Removal by nonce hits the intended transaction: a known transaction is what its account holds at its nonce,
      in exactly one of the two lists. */
  lemma KnownIsAtItsNonce(p: Lists, q: Lists, e: Known, tx: Transaction)
    requires Consistent(p, q, e, NO_TRANSIT) && InLookup(e, tx)
    ensures Holds(ItemsAt(p, tx.from), tx) <==> tx.nonce in ItemsAt(p, tx.from)
    ensures Holds(ItemsAt(q, tx.from), tx) <==> tx.nonce in ItemsAt(q, tx.from)
    ensures Holds(ItemsAt(p, tx.from), tx) != Holds(ItemsAt(q, tx.from), tx)
  {
    assert Located(p, q, NO_TRANSIT, tx);
    assert Disjoint(ItemsAt(p, tx.from), ItemsAt(q, tx.from));
  }

  /** `m'` differs from `m` at account `a` only. */
  ghost predicate SameBut(m: Lists, m': Lists, a: Address) {
    m - {a} == m' - {a}
  }

  lemma SameElsewhere(m: Lists, m': Lists, a: Address, b: Address)
    requires SameBut(m, m', a) && b != a
    ensures (b in m <==> b in m') && (b in m ==> m[b] == m'[b]) && ItemsAt(m, b) == ItemsAt(m', b)
  {
    assert b in m <==> b in m - {a};
    assert b in m' <==> b in m' - {a};
    if b in m { assert m[b] == (m - {a})[b] && m'[b] == (m' - {a})[b]; }
  }

  /** The part of a step's effect that concerns one account. */
  ghost predicate AccountOk(p: Lists, q: Lists, t: Transit, a: Address) {
    && (a in p ==> ListFor(p[a], a, true))
    && (a in q ==> ListFor(q[a], a, false))
    && Disjoint(ItemsAt(p, a), ItemsAt(q, a))
    && t.account == a && TransitOk(p, q, t)
  }

  /** A step that works on account `a` and fits the lookup to its new lists keeps the pool consistent. */
  lemma AccountStep(p: Lists, q: Lists, e: Known, t: Transit, p': Lists, q': Lists, e': Known, t': Transit, a: Address)
    requires Consistent(p, q, e, t) && (t.account == a || t.items == map[])
    requires SameBut(p, p', a) && SameBut(q, q', a) && AccountOk(p', q', t', a)
    requires HashKeyed(e')
    requires forall tx: Transaction | tx.from != a :: InLookup(e', tx) <==> InLookup(e, tx)
    requires forall tx: Transaction | tx.from == a :: InLookup(e', tx) <==> Located(p', q', t', tx)
    ensures Consistent(p', q', e', t')
  {
    forall b | b in p'
      ensures ListFor(p'[b], b, true)
    {
      if b != a { SameElsewhere(p, p', a, b); }
    }
    forall b | b in q'
      ensures ListFor(q'[b], b, false)
    {
      if b != a { SameElsewhere(q, q', a, b); }
    }
    forall b: Address
      ensures Disjoint(ItemsAt(p', b), ItemsAt(q', b))
    {
      if b != a {
        SameElsewhere(p, p', a, b);
        SameElsewhere(q, q', a, b);
        assert Disjoint(ItemsAt(p, b), ItemsAt(q, b));
      }
    }
    forall tx: Transaction
      ensures InLookup(e', tx) <==> Located(p', q', t', tx)
    {
      if tx.from != a {
        SameElsewhere(p, p', a, tx.from);
        SameElsewhere(q, q', a, tx.from);
        assert InLookup(e, tx) <==> Located(p, q, t, tx);
      }
    }
  }

  /** `e'` is `e` without the transactions of `gone`. */
  ghost predicate Forgot(e: Known, e': Known, gone: Items) {
    && HashKeyed(e')
    && forall tx: Transaction :: InLookup(e', tx) <==> InLookup(e, tx) && !Holds(gone, tx)
  }

  /** Queueing `tx`, fresh or out of transit, in place of whatever the queue held at its nonce. */
  lemma EnqueueStep(ctx: Currency.Context, p: Lists, q: Lists, e: Known, t: Transit, tx: Transaction, e': Known,
                    t': Transit)
    requires Consistent(p, q, e, t)
    requires Rated(ctx, tx) && tx.nonce !in ItemsAt(p, tx.from)
    requires t' == Transit(tx.from, t.items - {tx.nonce}) && (t.account == tx.from || t.items == map[])
    requires t.items == map[] || Holds(t.items, tx)
    requires Swapped(e, e', At(ItemsAt(q, tx.from), tx.nonce), tx)
    ensures Consistent(p, q[tx.from := Stored(ctx, if tx.from in q then q[tx.from] else EmptyList(false), tx)], e', t')
  {
    var a := tx.from;
    var q' := q[a := Stored(ctx, if a in q then q[a] else EmptyList(false), tx)];
    EnqueuedAccountOk(ctx, p, q, t, tx);
    assert SameBut(q, q', a) && SameBut(p, p, a);
    forall x: Transaction | x.from == a
      ensures InLookup(e', x) <==> Located(p, q', t', x)
    {
      assert InLookup(e, x) <==> Located(p, q, t, x);
    }
    AccountStep(p, q, e, t, p, q', e', t', a);
  }

  lemma EnqueuedAccountOk(ctx: Currency.Context, p: Lists, q: Lists, t: Transit, tx: Transaction)
    requires ListsOk(p, true) && ListsOk(q, false) && AllDisjoint(p, q) && TransitOk(p, q, t)
    requires Rated(ctx, tx) && tx.nonce !in ItemsAt(p, tx.from)
    requires t.account == tx.from || t.items == map[]
    ensures var q' := q[tx.from := Stored(ctx, if tx.from in q then q[tx.from] else EmptyList(false), tx)];
            && q'[tx.from].items == ItemsAt(q, tx.from)[tx.nonce := tx]
            && AccountOk(p, q', Transit(tx.from, t.items - {tx.nonce}), tx.from)
  {
    var l := if tx.from in q then q[tx.from] else EmptyList(false);
    StoredFor(ctx, l, tx, false);
    assert Disjoint(ItemsAt(p, tx.from), ItemsAt(q, tx.from));
  }

  lemma StoredFor(ctx: Currency.Context, l: List, tx: Transaction, strict: bool)
    requires ListFor(l, tx.from, strict) && Rated(ctx, tx)
    ensures ListFor(Stored(ctx, l, tx), tx.from, strict)
  {
    assert Stored(ctx, l, tx).items == l.items[tx.nonce := tx];
    forall n | n in Stored(ctx, l, tx).items
      ensures WithinCaps(Stored(ctx, l, tx), Stored(ctx, l, tx).items[n])
    {
      if n != tx.nonce { assert WithinCaps(l, l.items[n]); }
    }
  }

  /** Moving an account's transactions between its lists and transit, and forgetting those of `gone`. */
  lemma Redistribute(p: Lists, q: Lists, e: Known, t: Transit, p': Lists, q': Lists, e': Known, t': Transit, a: Address,
                     gone: Items)
    requires Consistent(p, q, e, t) && (t.account == a || t.items == map[])
    requires SameBut(p, p', a) && SameBut(q, q', a) && AccountOk(p', q', t', a)
    requires Forgot(e, e', gone) && SentBy(gone, a)
    requires forall x: Transaction | x.from == a :: Located(p', q', t', x) <==> Located(p, q, t, x) && !Holds(gone, x)
    ensures Consistent(p', q', e', t')
  {
    forall x: Transaction | x.from == a
      ensures InLookup(e', x) <==> Located(p', q', t', x)
    {
      assert InLookup(e, x) <==> Located(p, q, t, x);
    }
    AccountStep(p, q, e, t, p', q', e', t', a);
  }

  /** The lookup after `tx` has taken the place of `old_`. */
  ghost predicate Swapped(e: Known, e': Known, old_: Option<Transaction>, tx: Transaction) {
    && HashKeyed(e')
    && forall x: Transaction :: InLookup(e', x) <==> x == tx || (InLookup(e, x) && old_ != Some(x))
  }

  lemma LookupSwapped(e: Known, old_: Option<Transaction>, tx: Transaction)
    requires HashKeyed(e) && (old_.Some? ==> InLookup(e, old_.value))
    requires tx.hash !in e || (old_.None? && InLookup(e, tx))
    ensures Swapped(e, (if old_.Some? then e - {old_.value.hash} else e)[tx.hash := tx], old_, tx)
  {
  }

  lemma LookupReplaced(e: Known, old_: Option<Transaction>, tx: Transaction)
    requires HashKeyed(e) && InLookup(e, tx) && (old_.Some? ==> InLookup(e, old_.value) && old_.value != tx)
    ensures Swapped(e, if old_.Some? then e - {old_.value.hash} else e, old_, tx)
  {
  }

  /** What a queue entry and a transaction in transit mean for the lookup. */
  lemma EnqueueReady(p: Lists, q: Lists, e: Known, t: Transit, tx: Transaction)
    requires Consistent(p, q, e, t)
    ensures tx.nonce in ItemsAt(q, tx.from) ==> InLookup(e, ItemsAt(q, tx.from)[tx.nonce])
    ensures t.account == tx.from && Holds(t.items, tx) ==> InLookup(e, tx) && tx.nonce !in ItemsAt(q, tx.from)
  {
    assert InLookup(e, tx) <==> Located(p, q, t, tx);
    if tx.nonce in ItemsAt(q, tx.from) {
      var x := ItemsAt(q, tx.from)[tx.nonce];
      assert InLookup(e, x) <==> Located(p, q, t, x);
    }
  }

  /** Listing `tx` as pending, fresh or out of transit, in place of whatever the list held at its nonce. */
  lemma PromoteStep(ctx: Currency.Context, p: Lists, q: Lists, e: Known, t: Transit, tx: Transaction, e': Known)
    requires Consistent(p, q, e, t) && Rated(ctx, tx) && tx.nonce !in ItemsAt(q, tx.from)
    requires t.items == map[] || (t.account == tx.from && Holds(t.items, tx))
    requires Swapped(e, e', At(ItemsAt(p, tx.from), tx.nonce), tx)
    ensures Consistent(p[tx.from := Stored(ctx, if tx.from in p then p[tx.from] else EmptyList(true), tx)], q, e',
                       Transit(tx.from, t.items - {tx.nonce}))
  {
    var a := tx.from;
    var p' := p[a := Stored(ctx, if a in p then p[a] else EmptyList(true), tx)];
    var t' := Transit(a, t.items - {tx.nonce});
    PromotedAccountOk(ctx, p, q, t, tx);
    assert SameBut(q, q, a) && SameBut(p, p', a);
    forall x: Transaction | x.from == a
      ensures InLookup(e', x) <==> Located(p', q, t', x)
    {
      assert InLookup(e, x) <==> Located(p, q, t, x);
    }
    AccountStep(p, q, e, t, p', q, e', t', a);
  }

  lemma PromotedAccountOk(ctx: Currency.Context, p: Lists, q: Lists, t: Transit, tx: Transaction)
    requires ListsOk(p, true) && ListsOk(q, false) && AllDisjoint(p, q) && TransitOk(p, q, t)
    requires Rated(ctx, tx) && tx.nonce !in ItemsAt(q, tx.from) && (t.items == map[] || t.account == tx.from)
    ensures var p' := p[tx.from := Stored(ctx, if tx.from in p then p[tx.from] else EmptyList(true), tx)];
            && p'[tx.from].items == ItemsAt(p, tx.from)[tx.nonce := tx]
            && AccountOk(p', q, Transit(tx.from, t.items - {tx.nonce}), tx.from)
  {
    var l := if tx.from in p then p[tx.from] else EmptyList(true);
    StoredFor(ctx, l, tx, true);
    assert Disjoint(ItemsAt(p, tx.from), ItemsAt(q, tx.from));
  }

  /** What a pending entry and a transaction in transit mean for the lookup. */
  lemma PromoteReady(p: Lists, q: Lists, e: Known, t: Transit, tx: Transaction)
    requires Consistent(p, q, e, t) && t.account == tx.from && Holds(t.items, tx)
    ensures InLookup(e, tx) && tx.nonce !in ItemsAt(q, tx.from)
    ensures tx.nonce in ItemsAt(p, tx.from) ==> InLookup(e, ItemsAt(p, tx.from)[tx.nonce])
  {
    assert InLookup(e, tx) <==> Located(p, q, t, tx);
    if tx.nonce in ItemsAt(p, tx.from) {
      var x := ItemsAt(p, tx.from)[tx.nonce];
      assert InLookup(e, x) <==> Located(p, q, t, x);
    }
  }

  /** Dropping a transaction in transit that the pending list would not take. */
  lemma RefuseStep(p: Lists, q: Lists, e: Known, t: Transit, tx: Transaction)
    requires Consistent(p, q, e, t) && t.account == tx.from && Holds(t.items, tx) && !Holds(ItemsAt(p, tx.from), tx)
    ensures Consistent(p, q, e - {tx.hash}, Transit(tx.from, t.items - {tx.nonce}))
  {
    var a := tx.from;
    var e' := e - {tx.hash};
    var t' := Transit(a, t.items - {tx.nonce});
    assert InLookup(e, tx) <==> Located(p, q, t, tx);
    assert AccountOk(p, q, t', a) by {
      assert Disjoint(ItemsAt(p, a), ItemsAt(q, a));
    }
    forall x: Transaction | x.from == a
      ensures InLookup(e', x) <==> Located(p, q, t', x)
    {
      assert InLookup(e, x) <==> Located(p, q, t, x);
    }
    AccountStep(p, q, e, t, p, q, e', t', a);
  }

  /** The pending lists after promoting `tx`, whatever the rates. */
  function PromotedLists(ctx: Currency.Context, p: Lists, tx: Transaction, bump: nat): Lists {
    p[tx.from := Add(ctx, if tx.from in p then p[tx.from] else EmptyList(true), tx, bump).list]
  }

  /** And the lookup: what was replaced is forgotten, or else the transaction that was refused. */
  function PromotedLookup(ctx: Currency.Context, p: Lists, e: Known, tx: Transaction, bump: nat): Known {
    var o := Add(ctx, if tx.from in p then p[tx.from] else EmptyList(true), tx, bump);
    if !o.inserted then e - {tx.hash} else if o.replaced.Some? then e - {o.replaced.value.hash} else e
  }

  /** Promotion out of transit keeps the lists and the lookup in step exactly when the rate of `tx` is known, or its
      price is refused: for want of a rate it is listed and then forgotten. */
  lemma PromoteIff(ctx: Currency.Context, p: Lists, q: Lists, e: Known, t: Transit, tx: Transaction, bump: nat)
    requires Consistent(p, q, e, t) && t.account == tx.from && Holds(t.items, tx) && !Holds(ItemsAt(p, tx.from), tx)
    ensures Consistent(PromotedLists(ctx, p, tx, bump), q, PromotedLookup(ctx, p, e, tx, bump),
                       Transit(tx.from, t.items - {tx.nonce}))
            <==> Rated(ctx, tx) || !Accepts(ctx, ItemsAt(p, tx.from), tx, bump)
  {
    hide Consistent, Stored, Replaces;
    var p', e' := PromotedLists(ctx, p, tx, bump), PromotedLookup(ctx, p, e, tx, bump);
    PromoteReady(p, q, e, t, tx);
    if !Accepts(ctx, ItemsAt(p, tx.from), tx, bump) {
      assert p' == p;
      RefuseStep(p, q, e, t, tx);
    } else if Rated(ctx, tx) {
      ConsistentKeyed(p, q, e, t);
      LookupReplaced(e, At(ItemsAt(p, tx.from), tx.nonce), tx);
      PromoteStep(ctx, p, q, e, t, tx, e');
    } else {
      assert Holds(ItemsAt(p', tx.from), tx) && tx.hash !in e';
      ListedIsKnown(p', q, e', Transit(tx.from, t.items - {tx.nonce}), tx);
    }
  }

  lemma ConsistentKeyed(p: Lists, q: Lists, e: Known, t: Transit)
    requires Consistent(p, q, e, t)
    ensures HashKeyed(e)
  {
  }

  lemma ListedIsKnown(p: Lists, q: Lists, e: Known, t: Transit, tx: Transaction)
    requires Holds(ItemsAt(p, tx.from), tx)
    ensures Consistent(p, q, e, t) ==> InLookup(e, tx)
  {
    assert Located(p, q, t, tx);
  }

  /** So a transaction whose currency lost its rate while it was queued gets lost in between. */
  lemma LostRate(bump: nat) returns (ctx: Currency.Context, e: Known, t: Transit, tx: Transaction)
    ensures Consistent(map[], map[], e, t) && t.account == tx.from && Holds(t.items, tx)
    ensures !Consistent(PromotedLists(ctx, map[], tx, bump), map[], PromotedLookup(ctx, map[], e, tx, bump),
                        Transit(tx.from, t.items - {tx.nonce}))
  {
    tx := Transaction(1, 1, 0, 100, 10, 5, 5, 5, 0, Some(7), true, 100, 0, false);
    ctx, e, t := Currency.Context(map[], 0), map[1 := tx], Transit(1, map[0 := tx]);
    PromoteIff(ctx, map[], map[], e, t, tx, bump);
  }

  /** Cutting an account's pending list: part stays, part is forgotten, part goes into transit. */
  lemma CutPendingStep(p: Lists, q: Lists, e: Known, a: Address, o: FilterOutcome, e': Known)
    requires Consistent(p, q, e, NO_TRANSIT) && a in p
    requires CutOf(p[a], o, a, true) && Forgot(e, e', o.removed)
    ensures Consistent(p[a := o.list], q, e', Transit(a, o.invalids))
  {
    var p', t' := p[a := o.list], Transit(a, o.invalids);
    assert SameBut(p, p', a) && SameBut(q, q, a);
    assert ListFor(p[a], a, true) && Disjoint(ItemsAt(p, a), ItemsAt(q, a));
    assert AccountOk(p', q, t', a);
    forall x: Transaction | x.from == a
      ensures Located(p', q, t', x) <==> Located(p, q, NO_TRANSIT, x) && !Holds(o.removed, x)
    {
      PartitionHolds(p[a].items, o, x);
    }
    Redistribute(p, q, e, NO_TRANSIT, p', q, e', t', a, o.removed);
  }

  lemma CutQueueStep(p: Lists, q: Lists, e: Known, a: Address, o: FilterOutcome, e': Known)
    requires Consistent(p, q, e, NO_TRANSIT) && a in q
    requires CutOf(q[a], o, a, false) && Forgot(e, e', o.removed)
    ensures Consistent(p, q[a := o.list], e', Transit(a, o.invalids))
  {
    var q', t' := q[a := o.list], Transit(a, o.invalids);
    assert SameBut(p, p, a) && SameBut(q, q', a);
    assert ListFor(q[a], a, false) && Disjoint(ItemsAt(p, a), ItemsAt(q, a));
    assert AccountOk(p, q', t', a);
    forall x: Transaction | x.from == a
      ensures Located(p, q', t', x) <==> Located(p, q, NO_TRANSIT, x) && !Holds(o.removed, x)
    {
      PartitionHolds(q[a].items, o, x);
    }
    Redistribute(p, q, e, NO_TRANSIT, p, q', e', t', a, o.removed);
  }

  lemma PartitionHolds(m: Items, o: FilterOutcome, x: Transaction)
    requires Partition(m, o)
    ensures Holds(m, x) <==> Holds(o.list.items, x) || Holds(o.removed, x) || Holds(o.invalids, x)
    ensures Holds(o.removed, x) ==> !Holds(o.list.items, x) && !Holds(o.invalids, x)
  {
  }

  lemma RemovedIsKnown(p: Lists, q: Lists, e: Known, a: Address, m: Items, gone: Items)
    requires Consistent(p, q, e, NO_TRANSIT) && (m == ItemsAt(p, a) || m == ItemsAt(q, a))
    requires forall n | n in gone :: n in m && m[n] == gone[n]
    ensures forall n | n in gone :: InLookup(e, gone[n])
  {
    forall n | n in gone
      ensures InLookup(e, gone[n])
    {
      assert InLookup(e, gone[n]) <==> Located(p, q, NO_TRANSIT, gone[n]);
      assert a in p ==> ListFor(p[a], a, true);
      assert a in q ==> ListFor(q[a], a, false);
    }
  }

  lemma ConsistentAt(p: Lists, q: Lists, e: Known, a: Address)
    requires Consistent(p, q, e, NO_TRANSIT)
    ensures HashKeyed(e) && Disjoint(ItemsAt(p, a), ItemsAt(q, a))
    ensures a in p ==> ListFor(p[a], a, true)
    ensures a in q ==> ListFor(q[a], a, false)
    ensures Keyed(ItemsAt(p, a)) && Keyed(ItemsAt(q, a))
  {
  }

  /** An empty transit belongs to no account. */
  lemma EmptyTransit(p: Lists, q: Lists, e: Known, a: Address, b: Address)
    requires Consistent(p, q, e, Transit(a, map[]))
    ensures Consistent(p, q, e, Transit(b, map[]))
  {
    forall x: Transaction
      ensures InLookup(e, x) <==> Located(p, q, Transit(b, map[]), x)
    {
      assert InLookup(e, x) <==> Located(p, q, Transit(a, map[]), x);
    }
  }

  /** Deleting an account whose list has run empty. */
  lemma DropEmptyPending(p: Lists, q: Lists, e: Known, t: Transit, a: Address)
    requires Consistent(p, q, e, t) && ItemsAt(p, a) == map[]
    ensures Consistent(p - {a}, q, e, t)
  {
    var p' := p - {a};
    assert forall b: Address :: ItemsAt(p', b) == ItemsAt(p, b);
    forall b: Address
      ensures Disjoint(ItemsAt(p', b), ItemsAt(q, b))
    {
      assert Disjoint(ItemsAt(p, b), ItemsAt(q, b));
    }
    forall x: Transaction
      ensures InLookup(e, x) <==> Located(p', q, t, x)
    {
      assert InLookup(e, x) <==> Located(p, q, t, x);
    }
  }

  lemma DropEmptyQueue(p: Lists, q: Lists, e: Known, t: Transit, a: Address)
    requires Consistent(p, q, e, t) && ItemsAt(q, a) == map[]
    ensures Consistent(p, q - {a}, e, t)
  {
    var q' := q - {a};
    assert forall b: Address :: ItemsAt(q', b) == ItemsAt(q, b);
    forall b: Address
      ensures Disjoint(ItemsAt(p, b), ItemsAt(q', b))
    {
      assert Disjoint(ItemsAt(p, b), ItemsAt(q, b));
    }
    forall x: Transaction
      ensures InLookup(e, x) <==> Located(p, q', t, x)
    {
      assert InLookup(e, x) <==> Located(p, q, t, x);
    }
  }

  // ---------- List operations as cuts ----------

  function ForwardCut(l: List, t: nat): FilterOutcome {
    FilterOutcome(l.(items := From(l.items, t)), Below(l.items, t), map[])
  }

  function GatewayCut(l: List): FilterOutcome {
    FilterOutcome(l.(items := Without(l.items, (tx: Transaction) => tx.gatewaySet)),
                  Matching(l.items, (tx: Transaction) => tx.gatewaySet), map[])
  }

  function CapCut(l: List, k: nat): FilterOutcome {
    FilterOutcome(l.(items := LowestPart(l.items, k)), HighestPart(l.items, k), map[])
  }

  /** Ready sets the executable run on its way instead of forgetting it. */
  function ReadyCut(l: List, start: nat): FilterOutcome {
    FilterOutcome(l.(items := NotReadyPart(l.items, start)), map[], ReadyPart(l.items, start))
  }

  /** Postponing a whole list. */
  function GapCut(l: List): FilterOutcome {
    FilterOutcome(l.(items := map[]), map[], l.items)
  }

  /** Only the items change: the parts of a well-kept list are well kept. */
  lemma PartFor(l: List, m: Items, a: Address, strict: bool)
    requires ListFor(l, a, strict) && forall n | n in m :: n in l.items && m[n] == l.items[n]
    ensures ListFor(l.(items := m), a, strict)
  {
    SubsetKeepsOk(l, m);
  }

  /** A cut of an account's list: a partition whose kept part is again a well-kept list. */
  ghost predicate CutOf(l: List, o: FilterOutcome, a: Address, strict: bool) {
    Partition(l.items, o) && ListFor(o.list, a, strict)
  }

  lemma ForwardIsCut(l: List, a: Address, strict: bool, t: nat)
    requires ListFor(l, a, strict)
    ensures CutOf(l, ForwardCut(l, t), a, strict)
  {
    hide ListFor;
    PartFor(l, From(l.items, t), a, strict);
  }

  lemma GatewayIsCut(l: List, a: Address, strict: bool)
    requires ListFor(l, a, strict)
    ensures CutOf(l, GatewayCut(l), a, strict)
  {
    hide ListFor;
    PartFor(l, GatewayCut(l).list.items, a, strict);
  }

  lemma CapIsCut(l: List, a: Address, strict: bool, k: nat)
    requires ListFor(l, a, strict)
    ensures CutOf(l, CapCut(l, k), a, strict)
  {
    hide ListFor;
    PartFor(l, LowestPart(l.items, k), a, strict);
  }

  lemma ReadyIsCut(l: List, a: Address, strict: bool, start: nat)
    requires ListFor(l, a, strict)
    ensures CutOf(l, ReadyCut(l, start), a, strict)
  {
    hide ListFor, ReadyPart;
    ReadyPartition(l, start);
    PartFor(l, NotReadyPart(l.items, start), a, strict);
  }

  lemma GapIsCut(l: List, a: Address, strict: bool)
    requires ListFor(l, a, strict)
    ensures CutOf(l, GapCut(l), a, strict)
  {
    hide ListFor;
    PartFor(l, map[], a, strict);
  }

  lemma ReadyPartition(l: List, start: nat)
    ensures Partition(l.items, ReadyCut(l, start))
  {
    var ready := ReadyPart(l.items, start);
    assert forall n | n in ready :: n in l.items && ready[n] == l.items[n];
    hide ReadyPart;
  }

  lemma FilterIsCut(ctx: Currency.Context, l: List, lim: Limits, a: Address, strict: bool)
    requires ListFor(l, a, strict)
    ensures CutOf(l, Filter(ctx, l, lim), a, strict)
  {
    FilterKeepsOk(ctx, l, lim);
    FilterPartitions(ctx, l, lim);
  }

  lemma RemoveIsCut(l: List, nonce: nat, a: Address, strict: bool)
    requires ListFor(l, a, strict)
    ensures CutOf(l, Remove(l, nonce), a, strict)
  {
    RemoveKeepsOk(l, nonce);
    RemovePartitions(l, nonce);
  }

  /** Forgetting one known transaction by its hash. */
  lemma ForgetHash(e: Known, tx: Transaction)
    requires HashKeyed(e) && InLookup(e, tx)
    ensures Forgot(e, e - {tx.hash}, map[tx.nonce := tx])
  {
  }

  /** What Remove does, by case. */
  lemma RemoveUnfolds(l: List, nonce: nat)
    requires nonce in l.items
    ensures Remove(l, nonce).removed == map[nonce := l.items[nonce]]
    ensures l.strict ==> Remove(l, nonce).list.items == Below(l.items, nonce)
                         && Remove(l, nonce).invalids == From(l.items, nonce + 1)
    ensures !l.strict ==> Remove(l, nonce).list.items == l.items - {nonce} && Remove(l, nonce).invalids == map[]
  {
    var removed := map[nonce := l.items[nonce]];
    assert removed.Keys == {nonce} && Min({nonce}) == nonce;
  }

  lemma PendingIsKnown(p: Lists, q: Lists, e: Known, a: Address, n: nat)
    requires Consistent(p, q, e, NO_TRANSIT) && n in ItemsAt(p, a)
    ensures InLookup(e, ItemsAt(p, a)[n]) && n !in ItemsAt(q, a)
  {
    var x := ItemsAt(p, a)[n];
    assert ListFor(p[a], a, true);
    assert InLookup(e, x) <==> Located(p, q, NO_TRANSIT, x);
    assert Disjoint(ItemsAt(p, a), ItemsAt(q, a));
  }

  lemma QueuedIsKnown(p: Lists, q: Lists, e: Known, a: Address, n: nat)
    requires Consistent(p, q, e, NO_TRANSIT) && n in ItemsAt(q, a)
    ensures InLookup(e, ItemsAt(q, a)[n]) && n !in ItemsAt(p, a)
    ensures ItemsAt(q, a)[n].from == a && ItemsAt(q, a)[n].nonce == n
  {
    var x := ItemsAt(q, a)[n];
    assert ListFor(q[a], a, false);
    assert InLookup(e, x) <==> Located(p, q, NO_TRANSIT, x);
    assert Disjoint(ItemsAt(p, a), ItemsAt(q, a));
  }
}
