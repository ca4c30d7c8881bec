/** What a maintenance run does to the lists and heartbeats, stage by stage: reset, promotion, demotion. */
module PoolStages {
  import opened Options
  import opened Types
  import opened NonceMap
  import opened Currency
  import opened TxLists
  import opened PoolInvariant
  import opened PoolTruncation
  import opened PoolViews

  /** What the pool reads from the chain: account nonces and balances, token balances, the block gas limit, the
      currency context, and whether the next block deprecates gateway fees. */
  datatype ChainState = ChainState(
    nonce: Address -> nat, balance: Address -> nat, token: (Address, Address) -> nat,
    maxGas: nat, ctx: Context, dropGateway: bool)

  const UINT64 := 0x1_0000_0000_0000_0000

  /** The following nonce, in 64 bits. */
  function Next(n: nat): nat { (n + 1) % UINT64 }

  /** What the account can pay: its CELO, and its balance in every currency the list has seen. */
  function LimitsFor(st: ChainState, a: Address, l: List): Limits {
    Limits(st.balance(a), map c | c in l.feecaps :: st.token(a, c), st.maxGas)
  }

  /** What promotion makes of a queue: the run that becomes pending, and the list that stays queued. */
  datatype Promotion = Promotion(ready: Items, rest: List)

  function Payable(st: ChainState, a: Address, l: List): List {
    var l1 := ForwardCut(l, st.nonce(a)).list;
    var l2 := if st.dropGateway then GatewayCut(l1).list else l1;
    Filter(st.ctx, l2, LimitsFor(st, a, l2)).list
  }

  function PlanPromotion(st: ChainState, a: Address, l: List, next: nat, local: bool, cap: nat): Promotion {
    var r := ReadyCut(Payable(st, a, l), next);
    Promotion(r.invalids, if local then r.list else CapCut(r.list, cap).list)
  }

  /** What demotion makes of a pending list: what stays, and what goes back to the queue. */
  datatype Demotion = Demotion(kept: Items, requeued: Items)

  function PlanDemotion(st: ChainState, a: Address, l: List): Demotion {
    var l1 := ForwardCut(l, st.nonce(a)).list;
    var o := Filter(st.ctx, l1, LimitsFor(st, a, l1));
    if o.list.items != map[] && st.nonce(a) !in o.list.items then Demotion(map[], o.invalids + o.list.items)
    else Demotion(o.list.items, o.invalids)
  }

  /** The lists and heartbeats at some point of a maintenance run, and the time it runs at. */
  datatype Stage = Stage(pending: Lists, queue: Lists, beats: Beats, now: nat)

  function BeatAt(b: Beats, a: Address): Option<nat> {
    if a in b then Some(b[a]) else None
  }

  /** How the transactions of abandoned blocks were taken back: the pools in between, errors and replacements. */
  datatype Readded = Readded(views: seq<View>, errs: seq<Option<PoolError>>, replaced: seq<bool>)

  /** `s` is what a reset makes of the pool `v`: the abandoned transactions are added in turn, and every account's next
      nonce is that of the new state, less what drops took away. */
  ghost predicate ResetStage(config: Config, head: NewHead, v: View, added: Readded, s: Stage,
                             nonces: map<Address, nat>)
    requires head.NewHead?
  {
    && AddedInTurn(config, head.state.ctx, added.views, head.reinject, false, added.errs, added.replaced)
    && added.views[0] == v
    && PartsOf(s.pending) == added.views[|head.reinject|].pending
    && PartsOf(s.queue) == added.views[|head.reinject|].queue
    && NoneEmpty(s.pending) && NoneEmpty(s.queue) && s.beats == added.views[|head.reinject|].beats && s.now == v.now
    && Consistent(s.pending, s.queue, added.views[|head.reinject|].Everything(), NO_TRANSIT)
    && nonces == map a | a in s.queue :: ResetNonce(config, head, added, a)
  }

  /** An account's next nonce after a reset. */
  ghost function ResetNonce(config: Config, head: NewHead, added: Readded, a: Address): nat
    requires head.NewHead? && |added.views| > |head.reinject|
  {
    NextInTurn(config, added.views, head.reinject, false, |head.reinject|, a, head.state.nonce(a))
  }

  /** The pool that promotion starts from. */
  ghost function StartOf(reset: Option<NewHead>, added: Readded, v: View): View {
    if Moves(reset) && added.views != [] then added.views[|added.views| - 1] else v
  }

  /** From `s` to `s'`, the accounts asked for were promoted, each on its own, and no other changed. */
  ghost predicate PromotedStage(st: ChainState, locals: set<Address>, cap: nat, accounts: set<Address>,
                                nonces: map<Address, nat>, s: Stage, s': Stage) {
    forall a ::
      if a in accounts && a in s.queue then
        && a in nonces
        && Promoted(st, a, s.queue[a], nonces[a], a in locals, cap, ItemsAt(s.pending, a), ItemsAt(s'.pending, a),
                    ItemsAt(s'.queue, a))
        && BeatAt(s'.beats, a) == PromotedBeat(st, a, s.queue[a], nonces[a], a in locals, cap, BeatAt(s.beats, a),
                                               s.now)
      else
        && ItemsAt(s'.pending, a) == ItemsAt(s.pending, a) && ItemsAt(s'.queue, a) == ItemsAt(s.queue, a)
        && BeatAt(s'.beats, a) == BeatAt(s.beats, a)
  }

  ghost predicate ReadyInStage(st: ChainState, locals: set<Address>, cap: nat, accounts: set<Address>,
                               nonces: map<Address, nat>, s: Stage, tx: Transaction) {
    tx.from in accounts && tx.from in s.queue && tx.from in nonces
      && BecomesReady(st, s.queue[tx.from], nonces[tx.from], tx.from in locals, cap, tx)
  }

  /** From `s` to `s'`, every pending account was demoted, and no other changed. */
  ghost predicate DemotedStage(st: ChainState, s: Stage, s': Stage) {
    forall a ::
      if a in s.pending then
        && Demoted(st, a, s.pending[a], ItemsAt(s.queue, a), ItemsAt(s'.pending, a), ItemsAt(s'.queue, a))
        && BeatAt(s'.beats, a) == DemotedBeat(st, a, s.pending[a], BeatAt(s.beats, a), s.now)
      else
        && ItemsAt(s'.pending, a) == map[] && ItemsAt(s'.queue, a) == ItemsAt(s.queue, a)
        && BeatAt(s'.beats, a) == BeatAt(s.beats, a)
  }

  /** `tx` belongs to the run that becomes pending. */
  ghost predicate BecomesReady(st: ChainState, l: List, next: nat, local: bool, cap: nat, tx: Transaction) {
    Holds(PlanPromotion(st, tx.from, l, next, local, cap).ready, tx)
  }

  /** What a promotion leaves pending and queued for an account whose queue was `l` and whose pending part was `p`. */
  ghost predicate Promoted(st: ChainState, a: Address, l: List, next: nat, local: bool, cap: nat, p: Items, p': Items,
                           q': Items) {
    var plan := PlanPromotion(st, a, l, next, local, cap);
    p' == p + plan.ready && q' == plan.rest.items
  }

  /** The heartbeat after a promotion: none for an empty queue, now if something was promoted. */
  ghost function PromotedBeat(st: ChainState, a: Address, l: List, next: nat, local: bool, cap: nat, b: Option<nat>,
                              now: nat): Option<nat>
  {
    var plan := PlanPromotion(st, a, l, next, local, cap);
    if plan.rest.items == map[] then None else if plan.ready == map[] then b else Some(now)
  }

  /** The heartbeat after a demotion: one is given to an account that gets something queued and has none. */
  ghost function DemotedBeat(st: ChainState, a: Address, l: List, b: Option<nat>, now: nat): Option<nat> {
    if PlanDemotion(st, a, l).requeued == map[] || b.Some? then b else Some(now)
  }

  /** The effect of demotion on one account: its pending list `l` and queued items before, and both after. */
  ghost predicate Demoted(st: ChainState, a: Address, l: List, q: Items, p': Items, q': Items) {
    var plan := PlanDemotion(st, a, l);
    p' == plan.kept && q' == q + plan.requeued
  }

  /** A new head: the chain state after it, and the transactions of the blocks it abandons. When a block or the state is
      missing, the move is given up. */
  datatype NewHead = NewHead(state: ChainState, reinject: seq<Submission>) | GivenUp

  predicate Moves(reset: Option<NewHead>) {
    reset.Some? && reset.value.NewHead?
  }

  /** How a run went before truncation: what promotion started from, what it and demotion made of that, the next nonces
      it went by, and how the transactions of abandoned blocks were taken back. */
  datatype Trace = Trace(start: Stage, promoted: Stage, demoted: Stage, nonces: map<Address, nat>, added: Readded)

  /** The accounts to promote: after a reset, all that have something queued. */
  function Asked(reset: Option<NewHead>, dirty: set<Address>, s: Stage): set<Address> {
    if reset.Some? then s.queue.Keys else dirty
  }

  /** A run on the pool `v` with stage `s` and next nonces `nonces` is a reset if there is a new head to move to, then
      the promotion of exactly `txs`, then demotion if there was a reset. */
  ghost predicate Refreshed(config: Config, st: ChainState, locals: set<Address>, reset: Option<NewHead>,
                            dirty: set<Address>, v: View, s: Stage, nonces: map<Address, nat>, t: Trace,
                            txs: seq<Transaction>) {
    && StageOk(t.start) && StageOk(t.promoted) && StageOk(t.demoted)
    && (if Moves(reset) then ResetStage(config, reset.value, v, t.added, t.start, t.nonces)
        else t.start == s && t.nonces == nonces)
    && PromotedStage(st, locals, config.accountQueue, Asked(reset, dirty, t.start), t.nonces, t.start, t.promoted)
    && (forall tx :: tx in txs <==>
          ReadyInStage(st, locals, config.accountQueue, Asked(reset, dirty, t.start), t.nonces, t.start, tx))
    && (if reset.Some? then DemotedStage(st, t.promoted, t.demoted) else t.demoted == t.promoted)
  }

  /** An account's next nonce once a reset is over, `n` before. */
  ghost function NonceThen(config: Config, reset: Option<NewHead>, t: Trace, a: Address, n: nat): nat {
    if Moves(reset) && |t.added.views| > |reset.value.reinject| then ResetNonce(config, reset.value, t.added, a) else n
  }

  // ---------- Stage by stage ----------

  lemma SameOthers(m: Lists, m': Lists, a: Address)
    requires SameBut(m, m', a)
    ensures forall b | b != a :: (b in m <==> b in m') && (b in m ==> m[b] == m'[b]) && ItemsAt(m, b) == ItemsAt(m', b)
  {
    forall b | b != a
      ensures (b in m <==> b in m') && (b in m ==> m[b] == m'[b]) && ItemsAt(m, b) == ItemsAt(m', b)
    {
      SameElsewhere(m, m', a, b);
    }
  }

  /** The heartbeats after `promoted` of one account have become pending. */
  function Touched(b: Beats, a: Address, promoted: seq<Transaction>, now: nat): Beats {
    if promoted == [] then b else b[a := now]
  }

  lemma TouchedMore(b: Beats, a: Address, promoted: seq<Transaction>, tx: Transaction, now: nat)
    ensures Touched(b, a, promoted + [tx], now) == Touched(b, a, promoted, now)[a := now]
  {
  }

  lemma NotTouched(b: Beats, a: Address, now: nat)
    ensures Touched(b, a, [], now) == b
  {
  }

  lemma PromotedBeatIs(st: ChainState, a: Address, l: List, next: nat, local: bool, cap: nat, b0: Beats, b1: Beats,
                       b2: Beats, promoted: seq<Transaction>, now: nat)
    requires var plan := PlanPromotion(st, a, l, next, local, cap);
             IsListing(plan.ready, promoted) && b2 == Emptied(b1, a, plan.rest.items)
    requires b1 == Touched(b0, a, promoted, now)
    ensures BeatAt(b2, a) == PromotedBeat(st, a, l, next, local, cap, BeatAt(b0, a), now)
    ensures forall b | b != a :: BeatAt(b2, b) == BeatAt(b0, b)
  {
    var ready := PlanPromotion(st, a, l, next, local, cap).ready;
    hide PlanPromotion;
    assert |ready| == |promoted|;
  }

  /** Every pending account outside `todo` has been demoted, and nothing else has changed. */
  ghost predicate Demoting(st: ChainState, s0: Stage, s: Stage, todo: set<Address>) {
    forall a ::
      if a in todo then
        && a in s0.pending && a in s.pending && s.pending[a] == s0.pending[a]
        && ItemsAt(s.queue, a) == ItemsAt(s0.queue, a) && BeatAt(s.beats, a) == BeatAt(s0.beats, a)
      else if a in s0.pending then
        && Demoted(st, a, s0.pending[a], ItemsAt(s0.queue, a), ItemsAt(s.pending, a), ItemsAt(s.queue, a))
        && BeatAt(s.beats, a) == DemotedBeat(st, a, s0.pending[a], BeatAt(s0.beats, a), s0.now)
      else
        && a !in s.pending && ItemsAt(s.queue, a) == ItemsAt(s0.queue, a) && BeatAt(s.beats, a) == BeatAt(s0.beats, a)
  }

  lemma DemotingNone(st: ChainState, s: Stage)
    ensures Demoting(st, s, s, s.pending.Keys)
  {
    hide Demoted, DemotedBeat, ItemsAt, BeatAt;
  }

  lemma DemotingAt(st: ChainState, s0: Stage, s: Stage, todo: set<Address>, a: Address)
    requires Demoting(st, s0, s, todo) && a in todo
    ensures a in s0.pending && a in s.pending && s.pending[a] == s0.pending[a]
    ensures ItemsAt(s.queue, a) == ItemsAt(s0.queue, a) && BeatAt(s.beats, a) == BeatAt(s0.beats, a)
  {
    hide Demoted, DemotedBeat, ItemsAt, BeatAt;
  }

  lemma DemotingMore(st: ChainState, s0: Stage, s: Stage, s': Stage, todo: set<Address>, a: Address)
    requires Demoting(st, s0, s, todo) && a in todo && a in s0.pending
    requires SameBut(s.pending, s'.pending, a) && SameBut(s.queue, s'.queue, a)
    requires Demoted(st, a, s0.pending[a], ItemsAt(s0.queue, a), ItemsAt(s'.pending, a), ItemsAt(s'.queue, a))
    requires s'.beats == Requeued(s.beats, a, PlanDemotion(st, a, s0.pending[a]).requeued, s0.now)
    ensures Demoting(st, s0, s', todo - {a})
  {
    hide Demoted, DemotedBeat, ItemsAt, SameBut, BeatAt, Requeued, PlanDemotion;
    RequeuedBeats(st, s0, s, s', todo, a);
    SameOthers(s.pending, s'.pending, a);
    SameOthers(s.queue, s'.queue, a);
  }

  lemma RequeuedBeats(st: ChainState, s0: Stage, s: Stage, s': Stage, todo: set<Address>, a: Address)
    requires Demoting(st, s0, s, todo) && a in todo && a in s0.pending
    requires s'.beats == Requeued(s.beats, a, PlanDemotion(st, a, s0.pending[a]).requeued, s0.now)
    ensures BeatAt(s'.beats, a) == DemotedBeat(st, a, s0.pending[a], BeatAt(s0.beats, a), s0.now)
    ensures forall b | b != a :: BeatAt(s'.beats, b) == BeatAt(s.beats, b)
  {
    hide Demoted, ItemsAt, PlanDemotion;
    DemotingAt(st, s0, s, todo, a);
  }

  lemma DemotingAll(st: ChainState, s0: Stage, s: Stage)
    requires Demoting(st, s0, s, {})
    ensures DemotedStage(st, s0, s)
  {
    hide Demoted, DemotedBeat, BeatAt;
  }

  /** The accounts still to be promoted are as they were. */
  ghost predicate Waiting(s0: Stage, s: Stage, todo: set<Address>) {
    forall a | a in todo ::
      && (a in s.queue <==> a in s0.queue) && (a in s.queue ==> s.queue[a] == s0.queue[a])
      && ItemsAt(s.pending, a) == ItemsAt(s0.pending, a) && BeatAt(s.beats, a) == BeatAt(s0.beats, a)
  }

  /** All accounts outside `todo` have been promoted, and `promoted` lists what became ready so far. */
  ghost predicate PromotingStage(st: ChainState, locals: set<Address>, cap: nat, accounts: set<Address>,
                                 todo: set<Address>, nonces: map<Address, nat>, s0: Stage, s: Stage,
                                 promoted: seq<Transaction>)
  {
    && todo <= accounts && Waiting(s0, s, todo)
    && PromotedStage(st, locals, cap, accounts - todo, nonces, s0, s)
    && forall tx :: tx in promoted <==> ReadyInStage(st, locals, cap, accounts - todo, nonces, s0, tx)
  }

  lemma PromotingAt(st: ChainState, locals: set<Address>, cap: nat, accounts: set<Address>, todo: set<Address>,
                    nonces: map<Address, nat>, s0: Stage, s: Stage, promoted: seq<Transaction>, a: Address)
    requires PromotingStage(st, locals, cap, accounts, todo, nonces, s0, s, promoted) && a in todo
    ensures (a in s.queue <==> a in s0.queue) && (a in s.queue ==> s.queue[a] == s0.queue[a])
    ensures ItemsAt(s.pending, a) == ItemsAt(s0.pending, a) && BeatAt(s.beats, a) == BeatAt(s0.beats, a)
  {
    hide PromotedStage, ReadyInStage, ItemsAt, BeatAt;
  }

  lemma NonePromoted(st: ChainState, locals: set<Address>, cap: nat, accounts: set<Address>, nonces: map<Address, nat>,
                     s: Stage)
    ensures PromotingStage(st, locals, cap, accounts, accounts, nonces, s, s, [])
  {
    hide Promoted, PromotedBeat, ItemsAt, BecomesReady, BeatAt;
  }

  lemma AllPromoted(st: ChainState, locals: set<Address>, cap: nat, accounts: set<Address>, nonces: map<Address, nat>,
                    s0: Stage, s: Stage, promoted: seq<Transaction>)
    requires PromotingStage(st, locals, cap, accounts, {}, nonces, s0, s, promoted)
    ensures PromotedStage(st, locals, cap, accounts, nonces, s0, s)
    ensures forall tx :: tx in promoted <==> ReadyInStage(st, locals, cap, accounts, nonces, s0, tx)
  {
    hide PromotedStage, ReadyInStage;
    assert accounts - {} == accounts;
  }

  lemma OneMorePromoted(st: ChainState, locals: set<Address>, cap: nat, accounts: set<Address>, todo: set<Address>,
                        nonces: map<Address, nat>, s0: Stage, s: Stage, s': Stage, promoted: seq<Transaction>,
                        txs: seq<Transaction>, a: Address)
    requires PromotingStage(st, locals, cap, accounts, todo, nonces, s0, s, promoted)
    requires a in todo && a in s0.queue && a in nonces
    requires SameBut(s.pending, s'.pending, a) && SameBut(s.queue, s'.queue, a)
    requires Promoted(st, a, s0.queue[a], nonces[a], a in locals, cap, ItemsAt(s0.pending, a), ItemsAt(s'.pending, a),
                      ItemsAt(s'.queue, a))
    requires forall tx :: tx in txs <==> tx.from == a && BecomesReady(st, s0.queue[a], nonces[a], a in locals, cap, tx)
    requires BeatAt(s'.beats, a)
             == PromotedBeat(st, a, s0.queue[a], nonces[a], a in locals, cap, BeatAt(s0.beats, a), s0.now)
    requires forall b | b != a :: BeatAt(s'.beats, b) == BeatAt(s.beats, b)
    ensures PromotingStage(st, locals, cap, accounts, todo - {a}, nonces, s0, s', promoted + txs)
  {
    hide PromotedStage, ReadyInStage, Promoted, PromotedBeat, BecomesReady, SameBut, ItemsAt, Waiting, BeatAt;
    assert accounts - todo + {a} == accounts - (todo - {a});
    StageMore(st, locals, cap, accounts - todo, nonces, s0, s, s', a);
    StillWaiting(s0, s, s', todo, a);
    MoreReady(st, locals, cap, accounts - todo, nonces, s0, promoted, txs, a);
  }

  lemma StillWaiting(s0: Stage, s: Stage, s': Stage, todo: set<Address>, a: Address)
    requires Waiting(s0, s, todo) && SameBut(s.pending, s'.pending, a) && SameBut(s.queue, s'.queue, a)
    requires forall b | b != a :: BeatAt(s'.beats, b) == BeatAt(s.beats, b)
    ensures Waiting(s0, s', todo - {a})
  {
    hide ItemsAt, SameBut, BeatAt;
    SameOthers(s.pending, s'.pending, a);
    SameOthers(s.queue, s'.queue, a);
  }

  lemma StageMore(st: ChainState, locals: set<Address>, cap: nat, done: set<Address>, nonces: map<Address, nat>,
                  s0: Stage, s: Stage, s': Stage, a: Address)
    requires PromotedStage(st, locals, cap, done, nonces, s0, s) && a !in done && a in s0.queue && a in nonces
    requires SameBut(s.pending, s'.pending, a) && SameBut(s.queue, s'.queue, a)
    requires Promoted(st, a, s0.queue[a], nonces[a], a in locals, cap, ItemsAt(s0.pending, a), ItemsAt(s'.pending, a),
                      ItemsAt(s'.queue, a))
    requires BeatAt(s'.beats, a)
             == PromotedBeat(st, a, s0.queue[a], nonces[a], a in locals, cap, BeatAt(s0.beats, a), s0.now)
    requires forall b | b != a :: BeatAt(s'.beats, b) == BeatAt(s.beats, b)
    ensures PromotedStage(st, locals, cap, done + {a}, nonces, s0, s')
  {
    hide Promoted, PromotedBeat, ItemsAt, SameBut, BeatAt;
    SameOthers(s.pending, s'.pending, a);
    SameOthers(s.queue, s'.queue, a);
  }

  lemma MoreReady(st: ChainState, locals: set<Address>, cap: nat, done: set<Address>, nonces: map<Address, nat>,
                  s0: Stage, promoted: seq<Transaction>, txs: seq<Transaction>, a: Address)
    requires a !in done && a in s0.queue && a in nonces
    requires forall tx :: tx in promoted <==> ReadyInStage(st, locals, cap, done, nonces, s0, tx)
    requires forall tx :: tx in txs <==> tx.from == a && BecomesReady(st, s0.queue[a], nonces[a], a in locals, cap, tx)
    ensures forall tx :: tx in promoted + txs <==> ReadyInStage(st, locals, cap, done + {a}, nonces, s0, tx)
  {
    hide BecomesReady;
    forall tx
      ensures tx in promoted + txs <==> ReadyInStage(st, locals, cap, done + {a}, nonces, s0, tx)
    {
      assert tx in promoted + txs <==> tx in promoted || tx in txs;
    }
  }

  lemma OneMoreIdle(st: ChainState, locals: set<Address>, cap: nat, accounts: set<Address>, todo: set<Address>,
                    nonces: map<Address, nat>, s0: Stage, s: Stage, promoted: seq<Transaction>, a: Address)
    requires PromotingStage(st, locals, cap, accounts, todo, nonces, s0, s, promoted) && a in todo && a !in s0.queue
    ensures PromotingStage(st, locals, cap, accounts, todo - {a}, nonces, s0, s, promoted)
  {
    hide Promoted, PromotedBeat, ItemsAt, BecomesReady, BeatAt;
    assert accounts - todo + {a} == accounts - (todo - {a});
  }

  lemma PayableFor(st: ChainState, a: Address, l: List)
    requires ListFor(l, a, false)
    ensures ListFor(Payable(st, a, l), a, false)
  {
    hide ListFor, Filter;
    var l1 := ForwardCut(l, st.nonce(a)).list;
    ForwardIsCut(l, a, false, st.nonce(a));
    GatewayIsCut(l1, a, false);
    var l2 := if st.dropGateway then GatewayCut(l1).list else l1;
    FilterIsCut(st.ctx, l2, LimitsFor(st, a, l2), a, false);
  }

  /** The listing of a ready run holds exactly the transactions that become ready, all from that account. */
  lemma ReadyMembers(st: ChainState, a: Address, l: List, next: nat, local: bool, cap: nat, promoted: seq<Transaction>)
    requires ListFor(l, a, false) && IsListing(PlanPromotion(st, a, l, next, local, cap).ready, promoted)
    ensures forall tx :: tx in promoted <==> tx.from == a && BecomesReady(st, l, next, local, cap, tx)
  {
    PayableFor(st, a, l);
    hide Payable;
    var ready := PlanPromotion(st, a, l, next, local, cap).ready;
    assert SentBy(ready, a);
    forall tx
      ensures tx in promoted <==> Holds(ready, tx)
    {
      if Holds(ready, tx) { var i := CollectsMember(ready, promoted, tx.nonce); }
    }
  }

  // ---------- What is pending can be paid ----------

  /** The lists of a stage are in order: no stored transaction is above the caps of its list. */
  ghost predicate StageOk(s: Stage) {
    ListsOk(s.pending, true) && ListsOk(s.queue, false) && AllDisjoint(s.pending, s.queue)
  }

  /** The account has the gas, the CELO and the tokens for `tx`. What a CELO-denominated fee comes to in tokens depends
      on the rate, so it is not promised. */
  predicate Affordable(st: ChainState, a: Address, tx: Transaction) {
    && tx.gas <= st.maxGas
    && match tx.feeCurrency
       case None => tx.Cost() <= st.balance(a)
       case Some(c) => tx.value <= st.balance(a) && (!tx.denominated ==> tx.Fee() <= st.token(a, c))
  }

  /** Pending transactions that could be executed: they start at the account's nonce, and all can be paid. */
  ghost predicate Executable(st: ChainState, a: Address, m: Items) {
    && (m != map[] ==> st.nonce(a) in m)
    && forall n | n in m :: n >= st.nonce(a) && Affordable(st, a, m[n])
  }

  ghost predicate AllExecutable(st: ChainState, p: Lists) {
    forall a | a in p :: Executable(st, a, p[a].items)
  }

  /** The balance is asked for every currency of the list, so a scan or an early exit never misses one. */
  lemma BalanceKnown(st: ChainState, a: Address, l: List, n: nat)
    requires ListOk(l) && n in l.items && l.items[n].feeCurrency.Some?
    ensures l.items[n].feeCurrency.value in LimitsFor(st, a, l).fees
  {
    assert WithinCaps(l, l.items[n]);
  }

  /** Whether Filter scans or bails out, what it keeps can be paid. */
  lemma FilteredIsAffordable(st: ChainState, a: Address, l: List, n: nat)
    requires ListOk(l) && n in Filter(st.ctx, l, LimitsFor(st, a, l)).list.items
    ensures n in l.items && Filter(st.ctx, l, LimitsFor(st, a, l)).list.items[n] == l.items[n]
    ensures Affordable(st, a, l.items[n])
  {
    var lim := LimitsFor(st, a, l);
    FilterPartitions(st.ctx, l, lim);
    var tx := l.items[n];
    if tx.feeCurrency.Some? { BalanceKnown(st, a, l, n); }
    if CanBail(l, lim) {
      assert tx.nonce == n;
      BailLeavesAffordable(l, lim, tx);
    } else {
      assert !TooCostly(st.ctx, lim, tx);
    }
  }

  /** Demotion leaves only what can be executed. */
  lemma DemotedIsExecutable(st: ChainState, s: Stage, s': Stage)
    requires StageOk(s) && DemotedStage(st, s, s')
    ensures AllExecutable(st, s'.pending)
  {
    forall a | a in s'.pending
      ensures Executable(st, a, s'.pending[a].items)
    {
      if a in s.pending {
        assert ListFor(s.pending[a], a, true);
        PlanIsExecutable(st, a, s.pending[a]);
      }
    }
  }

  lemma PlanIsExecutable(st: ChainState, a: Address, l: List)
    requires ListOk(l)
    ensures Executable(st, a, PlanDemotion(st, a, l).kept)
  {
    var l1 := ForwardCut(l, st.nonce(a)).list;
    SubsetKeepsOk(l, l1.items);
    var kept := PlanDemotion(st, a, l).kept;
    forall n | n in kept
      ensures n >= st.nonce(a) && Affordable(st, a, kept[n])
    {
      FilteredIsAffordable(st, a, l1, n);
    }
  }

  /** Fair truncation takes the highest nonces, so what it leaves can still be executed. */
  lemma TruncatedIsExecutable(st: ChainState, p0: Lists, p: Lists, locals: set<Address>, slots: nat, limit: nat)
    requires AllExecutable(st, p0) && FairlyTruncated(p0, p, locals, slots, limit)
    ensures AllExecutable(st, p)
  {
    forall a | a in p
      ensures Executable(st, a, p[a].items)
    {
      LowestIsExecutable(st, a, p0[a].items, Len(p, a));
    }
  }

  lemma LowestIsExecutable(st: ChainState, a: Address, m: Items, k: nat)
    requires Executable(st, a, m)
    ensures Executable(st, a, LowestPart(m, k))
  {
    var low := LowestPart(m, k);
    LowestIsLowerPart(m.Keys, k);
    if low != map[] {
      var n :| n in low;
      assert st.nonce(a) in m.Keys && st.nonce(a) <= n;
    }
  }

  /** What becomes ready can be paid. */
  lemma ReadyIsAffordable(st: ChainState, locals: set<Address>, cap: nat, accounts: set<Address>,
                          nonces: map<Address, nat>, s: Stage, tx: Transaction)
    requires StageOk(s) && ReadyInStage(st, locals, cap, accounts, nonces, s, tx)
    ensures Affordable(st, tx.from, tx) && tx.nonce >= st.nonce(tx.from)
  {
    var a := tx.from;
    var l := s.queue[a];
    assert ListFor(l, a, false);
    var l1 := ForwardCut(l, st.nonce(a)).list;
    SubsetKeepsOk(l, l1.items);
    var l2 := if st.dropGateway then GatewayCut(l1).list else l1;
    SubsetKeepsOk(l1, l2.items);
    FilteredIsAffordable(st, a, l2, tx.nonce);
  }

  /** So a run promotes what can be paid, and after a reset leaves pending only what can be executed. */
  lemma RunIsExecutable(config: Config, st: ChainState, locals: set<Address>, reset: Option<NewHead>,
                        dirty: set<Address>, v: View, s: Stage, nonces: map<Address, nat>, t: Trace,
                        txs: seq<Transaction>, pending: Lists)
    requires Refreshed(config, st, locals, reset, dirty, v, s, nonces, t, txs)
    requires FairlyTruncated(t.demoted.pending, pending, locals, config.accountSlots, config.globalSlots)
    ensures reset.Some? ==> AllExecutable(st, pending)
    ensures forall tx | tx in txs :: Affordable(st, tx.from, tx)
  {
    hide StageOk, ResetStage, PromotedStage, DemotedStage, ReadyInStage, FairlyTruncated, AllExecutable, Affordable;
    if reset.Some? {
      DemotedIsExecutable(st, t.promoted, t.demoted);
      TruncatedIsExecutable(st, t.demoted.pending, pending, locals, config.accountSlots, config.globalSlots);
    }
    forall tx | tx in txs
      ensures Affordable(st, tx.from, tx)
    {
      ReadyIsAffordable(st, locals, config.accountQueue, Asked(reset, dirty, t.start), t.nonces, t.start, tx);
    }
  }
}
