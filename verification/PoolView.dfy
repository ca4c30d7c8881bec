/** What the pool holds, as a value, and what adding and removing make of it. */
module PoolViews {
  import opened Options
  import opened Types
  import opened NonceMap
  import opened Currency
  import opened TxLists
  import opened Lookup
  import opened PoolInvariant

  /** Settings; times are in nanoseconds. */
  datatype Config = Config(
    rejournal: int, priceBump: nat, accountSlots: nat, globalSlots: nat, accountQueue: nat, globalQueue: nat,
    lifetime: int)

  const SECOND := 1_000_000_000
  const HOUR := 3600 * SECOND
  const DEFAULT_CONFIG := Config(HOUR, 10, 16, 4096 + 1024, 64, 1024, 3 * HOUR)

  /** Replaces unworkable settings, and only those. */
  function Sanitize(c: Config): (r: Config)
    ensures r.rejournal >= SECOND && r.priceBump >= 1 && r.accountSlots >= 1 && r.globalSlots >= 1
    ensures r.accountQueue >= 1 && r.globalQueue >= 1 && r.lifetime >= 1
    ensures r.rejournal == c.rejournal || (c.rejournal < SECOND && r.rejournal == SECOND)
    ensures r.priceBump == c.priceBump || (c.priceBump < 1 && r.priceBump == DEFAULT_CONFIG.priceBump)
    ensures r.accountSlots == c.accountSlots || (c.accountSlots < 1 && r.accountSlots == DEFAULT_CONFIG.accountSlots)
    ensures r.globalSlots == c.globalSlots || (c.globalSlots < 1 && r.globalSlots == DEFAULT_CONFIG.globalSlots)
    ensures r.accountQueue == c.accountQueue || (c.accountQueue < 1 && r.accountQueue == DEFAULT_CONFIG.accountQueue)
    ensures r.globalQueue == c.globalQueue || (c.globalQueue < 1 && r.globalQueue == DEFAULT_CONFIG.globalQueue)
    ensures r.lifetime == c.lifetime || (c.lifetime < 1 && r.lifetime == DEFAULT_CONFIG.lifetime)
  {
    Config(if c.rejournal < SECOND then SECOND else c.rejournal,
           if c.priceBump < 1 then DEFAULT_CONFIG.priceBump else c.priceBump,
           if c.accountSlots < 1 then DEFAULT_CONFIG.accountSlots else c.accountSlots,
           if c.globalSlots < 1 then DEFAULT_CONFIG.globalSlots else c.globalSlots,
           if c.accountQueue < 1 then DEFAULT_CONFIG.accountQueue else c.accountQueue,
           if c.globalQueue < 1 then DEFAULT_CONFIG.globalQueue else c.globalQueue,
           if c.lifetime < 1 then DEFAULT_CONFIG.lifetime else c.lifetime)
  }

  datatype PoolError = AlreadyKnown | Invalid(code: nat) | Underpriced | PoolOverflow | ReplaceUnderpriced

  /** What the price heaps answer when the pool is full: whether the newcomer is the cheapest of all, and which
      transactions to drop for it. Nothing is assumed about these answers. */
  datatype PriceAdvice = PriceAdvice(underpriced: bool, drop: seq<Hash>, success: bool)

  /** A transaction handed to the pool, with the outcome of its stateless checks and the advice of the price heaps. */
  datatype Submission = Submission(tx: Transaction, invalid: Option<nat>, advice: PriceAdvice) {
    /** Validation tries the debit at the current rate, so whatever passes has one. */
    predicate RatedIfValid(ctx: Context) {
      invalid.None? ==> Rated(ctx, tx)
    }
  }

  /** Why a newcomer finds no room: nothing to say unless the pool is full. */
  function RoomError(full: bool, isLocal: bool, advice: PriceAdvice, changes: nat, config: Config): Option<PoolError> {
    if !full then None
    else if !isLocal && advice.underpriced then Some(Underpriced)
    else if changes > config.globalSlots / 4 then Some(PoolOverflow)
    else if !isLocal && !advice.success then Some(PoolOverflow)
    else None
  }

  /** The pool has no slots left for `tx`. */
  ghost predicate Full(config: Config, e: Known, tx: Transaction) {
    SlotSum(e) + tx.Slots() > config.globalSlots + config.globalQueue
  }

  // ---------- Views ----------

  type Parts = map<Address, Items>
  type Beats = map<Address, nat>

  /** An account without a heartbeat gets one. */
  function Beaten(b: Beats, a: Address, now: nat): Beats {
    if a in b then b else b[a := now]
  }

  /** The heartbeats after transactions of an account have gone back to its queue. */
  function Requeued(b: Beats, a: Address, items: Items, now: nat): Beats {
    if items == map[] then b else Beaten(b, a, now)
  }

  /** The heartbeats after an account's queue has changed to `items`: none is kept for an empty one. */
  function Emptied(b: Beats, a: Address, items: Items): Beats {
    if items == map[] then b - {a} else b
  }

  /** The transactions pending and queued by account, the lookup, the exempt accounts, how many were dropped for
      newcomers since the last maintenance run, the heartbeats, and the time it is. */
  datatype View = View(
    pending: Parts, queue: Parts, locals: Known, remotes: Known, exempt: set<Address>, changes: nat, beats: Beats,
    now: nat)
  {
    function Everything(): Known { locals + remotes }

    function Sides(): TwoSides { TwoSides(locals, remotes) }
  }

  function PartAt(m: Parts, a: Address): Items {
    if a in m then m[a] else map[]
  }

  function SetPart(m: Parts, a: Address, items: Items): Parts {
    if items == map[] then m - {a} else m[a := items]
  }

  function PartsOf(m: Lists): Parts {
    map a | a in m :: m[a].items
  }

  lemma PartAtItems(m: Lists, a: Address)
    ensures PartAt(PartsOf(m), a) == ItemsAt(m, a)
  {
  }

  /** A change of one account's list, seen in the parts. */
  lemma PartsChanged(m: Lists, m': Lists, a: Address)
    requires SameBut(m, m', a) && NoneEmpty(m) && NoneEmpty(m')
    ensures PartsOf(m') == SetPart(PartsOf(m), a, ItemsAt(m', a))
  {
    hide SameBut;
    var parts := SetPart(PartsOf(m), a, ItemsAt(m', a));
    forall b: Address
      ensures b in PartsOf(m') <==> b in parts
      ensures b in parts ==> PartsOf(m')[b] == parts[b]
    {
      if b != a { SameElsewhere(m, m', a, b); }
    }
  }

  lemma SetSamePart(m: Lists, a: Address)
    requires NoneEmpty(m)
    ensures SetPart(PartsOf(m), a, ItemsAt(m, a)) == PartsOf(m)
  {
  }

  // ---------- Removing ----------

  /** Removing one transaction: what lies above it on the pending list goes back to the queue. */
  function Removed(v: View, h: Hash): View {
    if h in v.Everything() then Unlisted(v, h, v.Everything()[h]) else v
  }

  function Unlisted(v: View, h: Hash, tx: Transaction): View {
    var p, q := PartAt(v.pending, tx.from), PartAt(v.queue, tx.from);
    View(if tx.nonce in p then SetPart(v.pending, tx.from, Below(p, tx.nonce)) else v.pending,
         SetPart(v.queue, tx.from, if tx.nonce in p then q + From(p, tx.nonce + 1) else q - {tx.nonce}),
         v.locals - {h}, v.remotes - {h}, v.exempt, v.changes,
         if tx.nonce in p then Requeued(v.beats, tx.from, From(p, tx.nonce + 1), v.now)
         else Emptied(v.beats, tx.from, q - {tx.nonce}),
         v.now)
  }

  /** The account's next nonce, `n` before, after removing `h`. */
  function RemovedNext(v: View, h: Hash, a: Address, n: nat): nat {
    if h !in v.Everything() then n
    else
      var tx := v.Everything()[h];
      if tx.from == a && tx.nonce in PartAt(v.pending, a) && tx.nonce < n then tx.nonce else n
  }

  lemma RemovedNextIs(v: View, tx: Transaction, a: Address, n: nat)
    requires InLookup(v.Everything(), tx)
    ensures RemovedNext(v, tx.hash, a, n)
            == if tx.from == a && tx.nonce in PartAt(v.pending, tx.from) && tx.nonce < n then tx.nonce else n
  {
  }

  function RemovedAll(v: View, hs: seq<Hash>): View {
    if hs == [] then v else Removed(RemovedAll(v, hs[..|hs| - 1]), hs[|hs| - 1])
  }

  function RemovedAllNext(v: View, hs: seq<Hash>, a: Address, n: nat): nat {
    if hs == [] then n
    else
      var init := hs[..|hs| - 1];
      RemovedNext(RemovedAll(v, init), hs[|hs| - 1], a, RemovedAllNext(v, init, a, n))
  }

  lemma RemovedOneMore(v: View, hs: seq<Hash>, i: nat)
    requires i < |hs|
    ensures RemovedAll(v, hs[..i + 1]) == Removed(RemovedAll(v, hs[..i]), hs[i])
    ensures forall a, n :: RemovedAllNext(v, hs[..i + 1], a, n)
                           == RemovedNext(RemovedAll(v, hs[..i]), hs[i], a, RemovedAllNext(v, hs[..i], a, n))
  {
    hide Removed, RemovedNext;
    assert hs[..i + 1][..i] == hs[..i];
  }

  /** Removal in the lists and in the lookup is removal in the view. */
  lemma RemovedIsView(v: View, p: Lists, q: Lists, p': Lists, q': Lists, beats: Beats, tx: Transaction)
    requires v.pending == PartsOf(p) && v.queue == PartsOf(q) && InLookup(v.Everything(), tx)
    requires NoneEmpty(p) && NoneEmpty(q) && NoneEmpty(p') && NoneEmpty(q')
    requires SameBut(p, p', tx.from) && SameBut(q, q', tx.from)
    requires RemovedFrom(ItemsAt(p, tx.from), ItemsAt(q, tx.from), ItemsAt(p', tx.from), ItemsAt(q', tx.from), tx.nonce)
    requires beats == if tx.nonce in ItemsAt(p, tx.from)
                      then Requeued(v.beats, tx.from, From(ItemsAt(p, tx.from), tx.nonce + 1), v.now)
                      else Emptied(v.beats, tx.from, ItemsAt(q', tx.from))
    ensures Removed(v, tx.hash) == v.(pending := PartsOf(p'), queue := PartsOf(q'), beats := beats,
                                      locals := v.locals - {tx.hash}, remotes := v.remotes - {tx.hash})
  {
    hide SameBut, NoneEmpty, View.Everything, Below, From, SetPart, PartsOf, ItemsAt, PartAt, Requeued, Emptied;
    assert Removed(v, tx.hash) == Unlisted(v, tx.hash, tx);
    PartAtItems(p, tx.from);
    PartAtItems(q, tx.from);
    PartsChanged(p, p', tx.from);
    PartsChanged(q, q', tx.from);
    SetSamePart(p, tx.from);
  }

  /** The effect of removing nonce `n` on one account's pending and queued items. */
  ghost predicate RemovedFrom(p: Items, q: Items, p': Items, q': Items, n: nat) {
    if n in p then p' == Below(p, n) && q' == q + From(p, n + 1)
    else p' == p && q' == q - {n}
  }

  // ---------- Adding ----------

  /** What the pool has for a newcomer to take the place of: a pending transaction, or else a queued one. */
  function Site(v: View, tx: Transaction): Items {
    if tx.nonce in PartAt(v.pending, tx.from) then PartAt(v.pending, tx.from) else PartAt(v.queue, tx.from)
  }

  function Hashes(old_: Option<Transaction>): set<Hash> {
    if old_.Some? then {old_.value.hash} else {}
  }

  /** The lookup with `tx` in place of `old_`. */
  function Swap(v: View, old_: Option<Transaction>, tx: Transaction, local: bool): View {
    var l, r := v.locals - Hashes(old_), v.remotes - Hashes(old_);
    if local then v.(locals := l[tx.hash := tx], remotes := r) else v.(locals := l, remotes := r[tx.hash := tx])
  }

  /** Marks an account as local: what it has in the pool becomes local, as does everything of exempt accounts. */
  function Exempted(v: View, a: Address): View {
    var exempt := v.exempt + {a};
    v.(exempt := exempt, locals := v.locals + SentBySome(v.remotes, exempt), remotes := SentByOthers(v.remotes, exempt))
  }

  /** The pool with `tx` in its place: at its nonce among the pending, or in the queue. */
  function Placed(v: View, tx: Transaction, local: bool): View {
    if tx.nonce in PartAt(v.pending, tx.from) then Repriced(v, tx, local || tx.from in v.exempt)
    else
      var queued := Queued(v, tx, local || tx.from in v.exempt);
      if local && tx.from !in v.exempt then Exempted(queued, tx.from) else queued
  }

  /** `tx` pending at its nonce, instead of what was there. */
  function Repriced(v: View, tx: Transaction, local: bool): View {
    var p := PartAt(v.pending, tx.from);
    Swap(v, At(p, tx.nonce), tx, local).(pending := v.pending[tx.from := p[tx.nonce := tx]],
                                         beats := v.beats[tx.from := v.now])
  }

  /** `tx` queued at its nonce, instead of anything there. */
  function Queued(v: View, tx: Transaction, local: bool): View {
    var q := PartAt(v.queue, tx.from);
    Swap(v, At(q, tx.nonce), tx, local).(queue := v.queue[tx.from := q[tx.nonce := tx]],
                                         beats := Beaten(v.beats, tx.from, v.now))
  }

  lemma RepricedIsView(v: View, p: Lists, p': Lists, tx: Transaction, local: bool)
    requires v.pending == PartsOf(p) && tx.nonce in ItemsAt(p, tx.from)
    requires NoneEmpty(p) && NoneEmpty(p') && SameBut(p, p', tx.from)
    requires ItemsAt(p', tx.from) == ItemsAt(p, tx.from)[tx.nonce := tx]
    ensures Repriced(v, tx, local) == Swap(v, Some(ItemsAt(p, tx.from)[tx.nonce]), tx, local)
                                      .(pending := PartsOf(p'), beats := v.beats[tx.from := v.now])
  {
    hide SameBut, NoneEmpty, PartsOf, ItemsAt, PartAt, Swap;
    PartAtItems(p, tx.from);
    PartsChanged(p, p', tx.from);
    assert tx.nonce in ItemsAt(p', tx.from);
  }

  /** The pool after room has been made: when it is full, the advised are dropped. */
  ghost function RoomMade(config: Config, v: View, s: Submission): View {
    if Full(config, v.Everything(), s.tx)
    then RemovedAll(v, s.advice.drop).(changes := v.changes + |s.advice.drop|)
    else v
  }

  datatype Outcome = Outcome(view: View, err: Option<PoolError>, replaced: bool)

  /** Adding one submission. */
  ghost function Added(config: Config, ctx: Context, v: View, s: Submission, local: bool): Outcome {
    var isLocal := local || s.tx.from in v.exempt;
    var room := RoomError(Full(config, v.Everything(), s.tx), isLocal, s.advice, v.changes, config);
    var v1 := RoomMade(config, v, s);
    if s.tx.hash in v.Everything() then Outcome(v, Some(AlreadyKnown), false)
    else if s.invalid.Some? then Outcome(v, Some(Invalid(s.invalid.value)), false)
    else if room.Some? then Outcome(v, room, false)
    else if !Accepts(ctx, Site(v1, s.tx), s.tx, config.priceBump) then Outcome(v1, Some(ReplaceUnderpriced), false)
    else Outcome(Placed(v1, s.tx, local), None, s.tx.nonce in Site(v1, s.tx))
  }

  /** An account's next nonce after adding one submission: only drops can lower it. */
  ghost function AddedNext(config: Config, v: View, s: Submission, local: bool, a: Address, n: nat): nat {
    var room := RoomError(Full(config, v.Everything(), s.tx), local || s.tx.from in v.exempt, s.advice, v.changes,
                          config);
    if s.tx.hash !in v.Everything() && s.invalid.None? && room.None? && Full(config, v.Everything(), s.tx)
    then RemovedAllNext(v, s.advice.drop, a, n)
    else n
  }

  /** A batch is added one submission after the other; `views` are the pools in between. */
  ghost predicate AddedInTurn(config: Config, ctx: Context, views: seq<View>, batch: seq<Submission>, local: bool,
                              errs: seq<Option<PoolError>>, replaced: seq<bool>)
  {
    && |errs| == |replaced| == |batch| && |views| == |batch| + 1
    && forall i | 0 <= i < |batch| ::
         Outcome(views[i + 1], errs[i], replaced[i]) == Added(config, ctx, views[i], batch[i], local)
  }

  /** An account's next nonce, `n` before, after the first `k` submissions. */
  ghost function NextInTurn(config: Config, views: seq<View>, batch: seq<Submission>, local: bool, k: nat, a: Address,
                            n: nat): nat
    requires k <= |batch| && k < |views|
  {
    if k == 0 then n
    else AddedNext(config, views[k - 1], batch[k - 1], local, a, NextInTurn(config, views, batch, local, k - 1, a, n))
  }

  lemma OneMoreAdded(config: Config, ctx: Context, views: seq<View>, batch: seq<Submission>, local: bool,
                     errs: seq<Option<PoolError>>, replaced: seq<bool>, o: Outcome)
    requires |errs| < |batch| && AddedInTurn(config, ctx, views, batch[..|errs|], local, errs, replaced)
    requires o == Added(config, ctx, views[|errs|], batch[|errs|], local)
    ensures AddedInTurn(config, ctx, views + [o.view], batch[..|errs| + 1], local, errs + [o.err],
                        replaced + [o.replaced])
  {
    hide Added;
    var i := |errs|;
    var views', errs', replaced' := views + [o.view], errs + [o.err], replaced + [o.replaced];
    forall k | 0 <= k < i + 1
      ensures Outcome(views'[k + 1], errs'[k], replaced'[k]) == Added(config, ctx, views'[k], batch[..i + 1][k], local)
    {
      if k < i {
        assert Outcome(views[k + 1], errs[k], replaced[k]) == Added(config, ctx, views[k], batch[..i][k], local);
      }
    }
  }

  lemma {:induction false} NextInTurnExtends(config: Config, views: seq<View>, more: seq<View>, batch: seq<Submission>,
                                             local: bool, k: nat, a: Address, n: nat)
    requires k <= |batch| && k < |views|
    ensures NextInTurn(config, views + more, batch, local, k, a, n) == NextInTurn(config, views, batch, local, k, a, n)
  {
    hide AddedNext;
    if k > 0 { NextInTurnExtends(config, views, more, batch, local, k - 1, a, n); }
  }

  // ---------- What adding brings in ----------

  /** `tx` is at `h` on side `m`. */
  predicate IsAt(m: Known, h: Hash, tx: Transaction) {
    h in m && m[h] == tx
  }

  /** Going from `z` to `z'`, nothing came in but `tx`, and nothing became remote. */
  ghost predicate Brought(z: TwoSides, z': TwoSides, tx: Transaction) {
    && (forall h | h in z'.remotes :: IsAt(z.remotes, h, z'.remotes[h]) || (h == tx.hash && z'.remotes[h] == tx))
    && (forall h | h in z'.locals ::
          || IsAt(z.locals, h, z'.locals[h]) || IsAt(z.remotes, h, z'.locals[h])
          || (h == tx.hash && z'.locals[h] == tx))
  }

  lemma {:induction false} RemovedAllFewer(v: View, hs: seq<Hash>)
    ensures Fewer(RemovedAll(v, hs).Sides(), v.Sides())
    decreases |hs|
  {
    hide PartAt, SetPart, Requeued, Emptied, Below, From;
    if hs != [] { RemovedAllFewer(v, hs[..|hs| - 1]); }
  }

  lemma SwapBrings(v: View, old_: Option<Transaction>, tx: Transaction, local: bool)
    ensures Brought(v.Sides(), Swap(v, old_, tx, local).Sides(), tx)
  {
  }

  lemma ExemptedBrings(z: TwoSides, v: View, tx: Transaction, a: Address)
    requires Brought(z, v.Sides(), tx)
    ensures Brought(z, Exempted(v, a).Sides(), tx)
  {
  }

  lemma PlacedBrings(v: View, tx: Transaction, local: bool)
    ensures Brought(v.Sides(), Placed(v, tx, local).Sides(), tx)
  {
    hide PartAt, Brought, Swap, Exempted;
    var p, q := PartAt(v.pending, tx.from), PartAt(v.queue, tx.from);
    SwapBrings(v, At(p, tx.nonce), tx, local || tx.from in v.exempt);
    SwapBrings(v, At(q, tx.nonce), tx, local || tx.from in v.exempt);
    ExemptedBrings(v.Sides(), Queued(v, tx, local || tx.from in v.exempt), tx, tx.from);
  }

  lemma FewerThenBrought(z0: TwoSides, z: TwoSides, z': TwoSides, tx: Transaction)
    ensures z0 == z == z' ==> Brought(z0, z', tx)
    ensures Fewer(z, z0) && Brought(z, z', tx) ==> Brought(z0, z', tx)
    ensures Fewer(z, z0) && z' == z ==> Brought(z0, z', tx)
  {
  }

  lemma AddedBrings(config: Config, ctx: Context, v: View, s: Submission, local: bool)
    ensures Brought(v.Sides(), Added(config, ctx, v, s, local).view.Sides(), s.tx)
    ensures s.invalid.Some? ==> Added(config, ctx, v, s, local).view == v
  {
    hide Placed, RemovedAll, Accepts, Site, RoomError, Full, Brought, Fewer;
    RemovedAllFewer(v, s.advice.drop);
    FewerThenBrought(v.Sides(), v.Sides(), v.Sides(), s.tx);
    var v1 := RoomMade(config, v, s);
    PlacedBrings(v1, s.tx, local);
    FewerThenBrought(v.Sides(), v1.Sides(), v1.Sides(), s.tx);
    FewerThenBrought(v.Sides(), v1.Sides(), Placed(v1, s.tx, local).Sides(), s.tx);
  }
}
