/** What adding, removing, promoting and demoting do to each transaction, said of single nonces and hashes. */
module PoolRules {
  import opened Options
  import opened Types
  import opened NonceMap
  import opened Currency
  import opened TxLists
  import opened Lookup
  import opened PoolInvariant
  import opened PoolViews
  import opened PoolStages

  /** Account `a` has something at nonce `n`. */
  predicate Taken(m: Parts, a: Address, n: nat) {
    a in m && n in m[a]
  }

  /** Account `a` has `tx` at nonce `n`. */
  predicate Held(m: Parts, a: Address, n: nat, tx: Transaction) {
    Taken(m, a, n) && m[a][n] == tx
  }

  // ---------- Removing ----------

  /** Removing `tx` takes nothing else from the pool: a queued one just goes; of a pending one, what lies above it goes
      to the queue. */
  ghost predicate RemovalRule(v: View, tx: Transaction, v': View) {
    var listed := Taken(v.pending, tx.from, tx.nonce);
    && (forall a: Address, n: nat, t :: Held(v'.pending, a, n, t) <==>
          Held(v.pending, a, n, t) && !(listed && a == tx.from && n >= tx.nonce))
    && (forall a: Address, n: nat, t :: Held(v'.queue, a, n, t) <==>
          if listed && a == tx.from && n > tx.nonce && Taken(v.pending, a, n) then Held(v.pending, a, n, t)
          else Held(v.queue, a, n, t) && (listed || a != tx.from || n != tx.nonce))
    && v'.locals == v.locals - {tx.hash} && v'.remotes == v.remotes - {tx.hash} && v'.exempt == v.exempt
    && v'.changes == v.changes && v'.now == v.now
  }

  /** Its account gets a heartbeat if something was queued again, and loses it with its last queued transaction. */
  ghost predicate RemovalBeats(v: View, tx: Transaction, v': View) {
    var listed := Taken(v.pending, tx.from, tx.nonce);
    var more := exists n: nat :: n > tx.nonce && Taken(v.pending, tx.from, n);
    && (listed && (!more || tx.from in v.beats) ==> v'.beats == v.beats)
    && (listed && more && tx.from !in v.beats ==> v'.beats == v.beats[tx.from := v.now])
    && (!listed && tx.from in v'.queue ==> v'.beats == v.beats)
    && (!listed && tx.from !in v'.queue ==> v'.beats == v.beats - {tx.from})
  }

  /** An unknown hash changes nothing. */
  lemma RemovedMeans(v: View, h: Hash)
    requires HashKeyed(v.locals + v.remotes)
    ensures h !in v.locals && h !in v.remotes ==> Removed(v, h) == v
    ensures h in v.remotes ==>
              RemovalRule(v, v.remotes[h], Removed(v, h)) && RemovalBeats(v, v.remotes[h], Removed(v, h))
    ensures h in v.locals && h !in v.remotes ==>
              RemovalRule(v, v.locals[h], Removed(v, h)) && RemovalBeats(v, v.locals[h], Removed(v, h))
  {
    hide Unlisted, RemovalRule, RemovalBeats;
    if h in v.locals || h in v.remotes {
      var tx := v.Everything()[h];
      assert tx.hash == h && Removed(v, h) == Unlisted(v, h, tx);
      UnlistedMeans(v, tx);
      UnlistedBeats(v, tx);
    }
  }

  lemma UnlistedMeans(v: View, tx: Transaction)
    ensures RemovalRule(v, tx, Unlisted(v, tx.hash, tx))
  {
    hide Unlisted, Held, Taken;
    assert Unlisted(v, tx.hash, tx).(pending := v.pending, queue := v.queue, beats := v.beats)
           == v.(locals := v.locals - {tx.hash}, remotes := v.remotes - {tx.hash}) by { UnlistedSides(v, tx); }
    forall a: Address, n: nat, t
      ensures Held(Unlisted(v, tx.hash, tx).pending, a, n, t) <==>
                Held(v.pending, a, n, t) && !(Taken(v.pending, tx.from, tx.nonce) && a == tx.from && n >= tx.nonce)
      ensures Held(Unlisted(v, tx.hash, tx).queue, a, n, t) <==>
                if Taken(v.pending, tx.from, tx.nonce) && a == tx.from && n > tx.nonce && Taken(v.pending, a, n)
                then Held(v.pending, a, n, t)
                else Held(v.queue, a, n, t) && (Taken(v.pending, tx.from, tx.nonce) || a != tx.from || n != tx.nonce)
    {
      UnlistedAt(v, tx, a, n, t);
    }
  }

  lemma UnlistedSides(v: View, tx: Transaction)
    ensures Unlisted(v, tx.hash, tx).(pending := v.pending, queue := v.queue, beats := v.beats)
            == v.(locals := v.locals - {tx.hash}, remotes := v.remotes - {tx.hash})
  {
    hide Requeued, Emptied, SetPart, Below, From, PartAt;
  }

  lemma UnlistedAt(v: View, tx: Transaction, a: Address, n: nat, t: Transaction)
    ensures var listed, v' := Taken(v.pending, tx.from, tx.nonce), Unlisted(v, tx.hash, tx);
            && (Held(v'.pending, a, n, t) <==> Held(v.pending, a, n, t) && !(listed && a == tx.from && n >= tx.nonce))
            && (Held(v'.queue, a, n, t) <==>
                  if listed && a == tx.from && n > tx.nonce && Taken(v.pending, a, n) then Held(v.pending, a, n, t)
                  else Held(v.queue, a, n, t) && (listed || a != tx.from || n != tx.nonce))
  {
    hide Requeued, Emptied, SetPart, Below, From, PartAt;
    var p: Items, q: Items := PartAt(v.pending, tx.from), PartAt(v.queue, tx.from);
    SetPartHeld(v.pending, tx.from, Below(p, tx.nonce), a, n, t);
    SetPartHeld(v.queue, tx.from, if tx.nonce in p then q + From(p, tx.nonce + 1) else q - {tx.nonce}, a, n, t);
    PartHeld(v.pending, tx.from, tx.nonce);
    PartHeld(v.pending, tx.from, n);
    PartHeld(v.queue, tx.from, n);
    Divided(p, tx.nonce, n);
  }

  lemma SetPartHeld(m: Parts, a0: Address, items: Items, a: Address, n: nat, t: Transaction)
    ensures Held(SetPart(m, a0, items), a, n, t) <==> if a == a0 then n in items && items[n] == t else Held(m, a, n, t)
  {
  }

  lemma PartHeld(m: Parts, a: Address, n: nat)
    ensures n in PartAt(m, a) <==> Taken(m, a, n)
    ensures n in PartAt(m, a) ==> Held(m, a, n, PartAt(m, a)[n])
  {
  }

  lemma Divided(m: Items, n0: nat, n: nat)
    ensures n in Below(m, n0) <==> n in m && n < n0
    ensures n in From(m, n0 + 1) <==> n in m && n > n0
    ensures n in Below(m, n0) ==> Below(m, n0)[n] == m[n]
    ensures n in From(m, n0 + 1) ==> From(m, n0 + 1)[n] == m[n]
  {
  }

  lemma UnlistedBeats(v: View, tx: Transaction)
    ensures RemovalBeats(v, tx, Unlisted(v, tx.hash, tx))
  {
    var p, q := PartAt(v.pending, tx.from), PartAt(v.queue, tx.from);
    var up := From(p, tx.nonce + 1);
    if tx.nonce in p && up != map[] {
      var n :| n in up;
      assert n > tx.nonce && Taken(v.pending, tx.from, n);
    }
    if n: nat :| n > tx.nonce && Taken(v.pending, tx.from, n) {
      assert n in up;
    }
  }

  /** Room is made one removal after the other. */
  lemma DroppedOneMore(v: View, hs: seq<Hash>, h: Hash)
    requires var w := RemovedAll(v, hs); HashKeyed(w.locals + w.remotes)
    ensures RemovedAll(v, []) == v
    ensures var w, w' := RemovedAll(v, hs), RemovedAll(v, hs + [h]);
            if h in w.remotes then RemovalRule(w, w.remotes[h], w')
            else if h in w.locals then RemovalRule(w, w.locals[h], w')
            else w' == w
  {
    hide Removed, RemovalRule, RemovalBeats;
    assert (hs + [h])[..|hs|] == hs;
    RemovedMeans(RemovedAll(v, hs), h);
  }

  /** Dropping takes out exactly the advised. */
  lemma {:induction false} DroppedMeans(v: View, hs: seq<Hash>)
    ensures var w := RemovedAll(v, hs);
            && (forall h :: h in w.locals <==> h in v.locals && h !in hs)
            && (forall h :: h in w.remotes <==> h in v.remotes && h !in hs)
            && w.exempt == v.exempt && w.changes == v.changes && w.now == v.now
    decreases |hs|
  {
    hide PartAt, SetPart, Requeued, Emptied, Below, From;
    if hs != [] {
      DroppedMeans(v, hs[..|hs| - 1]);
      assert hs == hs[..|hs| - 1] + [hs[|hs| - 1]];
    }
  }

  /** Only the nonce of a pending transaction taken out can become its account's next, and none above it stays so. */
  lemma RemovedNextMeans(v: View, h: Hash, a: Address, n: nat)
    ensures var r := RemovedNext(v, h, a, n);
            var known := h in v.locals || h in v.remotes;
            var tx := if h in v.remotes then Some(v.remotes[h]) else if known then Some(v.locals[h]) else None;
            && r <= n
            && (r < n ==> tx.Some? && tx.value.from == a && tx.value.nonce == r && Taken(v.pending, a, r))
            && (tx.Some? && tx.value.from == a && Taken(v.pending, a, tx.value.nonce) ==> r <= tx.value.nonce)
  {
  }

  // ---------- Adding ----------

  /** `tx` takes its place, among the pending if that nonce is pending, and no other nonce changes. */
  ghost predicate PlacementRule(v: View, tx: Transaction, v': View) {
    var listed := Taken(v.pending, tx.from, tx.nonce);
    && (forall a: Address, n: nat, t :: Held(v'.pending, a, n, t) <==>
          if listed && a == tx.from && n == tx.nonce then t == tx else Held(v.pending, a, n, t))
    && (forall a: Address, n: nat, t :: Held(v'.queue, a, n, t) <==>
          if !listed && a == tx.from && n == tx.nonce then t == tx else Held(v.queue, a, n, t))
    && v'.changes == v.changes && v'.now == v.now
  }

  /** A replaced pending transaction refreshes the heartbeat; a queued one only starts it. */
  ghost predicate PlacementBeats(v: View, tx: Transaction, v': View) {
    if !Taken(v.pending, tx.from, tx.nonce) && tx.from in v.beats then v'.beats == v.beats
    else v'.beats == v.beats[tx.from := v.now]
  }

  /** The transaction that the one placed at that nonce replaces. */
  ghost predicate GivesWay(v: View, tx: Transaction, h: Hash) {
    var site := if Taken(v.pending, tx.from, tx.nonce) then v.pending else v.queue;
    Taken(site, tx.from, tx.nonce) && site[tx.from][tx.nonce].hash == h
  }

  /** The newcomer is a local if handed in as one or sent by an exempt account; the replaced one leaves the lookup; and
      when an account becomes exempt, so do its remote transactions. */
  ghost predicate PlacementSides(v: View, tx: Transaction, local: bool, v': View) {
    var exempt := local || tx.from in v.exempt;
    var joins := local && tx.from !in v.exempt && !Taken(v.pending, tx.from, tx.nonce);
    && v'.exempt == (if joins then v.exempt + {tx.from} else v.exempt)
    && (exempt ==> tx.hash in v'.locals && v'.locals[tx.hash] == tx)
    && (!exempt ==> tx.hash in v'.remotes && v'.remotes[tx.hash] == tx)
    && (forall h | h != tx.hash :: h in v'.remotes <==>
          h in v.remotes && !GivesWay(v, tx, h) && !(joins && v.remotes[h].from in v'.exempt))
    && (forall h | h != tx.hash :: h in v'.locals <==>
          !GivesWay(v, tx, h) && (h in v.locals || (h in v.remotes && joins && v.remotes[h].from in v'.exempt)))
  }

  /** A newcomer takes its place by all three rules. */
  lemma PlacedMeans(v: View, tx: Transaction, local: bool)
    requires tx.hash !in v.remotes
    ensures var v' := Placed(v, tx, local);
            PlacementRule(v, tx, v') && PlacementBeats(v, tx, v') && PlacementSides(v, tx, local, v')
  {
    hide PlacementRule, PlacementSides, PlacementBeats, SentBySome, SentByOthers;
    assert PlacementRule(v, tx, Placed(v, tx, local)) by { PlacedAtNonce(v, tx, local); }
    assert PlacementBeats(v, tx, Placed(v, tx, local)) by { PlacedBeats(v, tx, local); }
    PlacedSides(v, tx, local);
  }

  lemma PlacedAtNonce(v: View, tx: Transaction, local: bool)
    ensures PlacementRule(v, tx, Placed(v, tx, local))
  {
    hide Placed, PartAt, Held, Taken;
    PartHeld(v.pending, tx.from, tx.nonce);
    PlacedLists(v, tx, local);
    forall a: Address, n: nat, t
      ensures Held(Placed(v, tx, local).pending, a, n, t) <==>
                if Taken(v.pending, tx.from, tx.nonce) && a == tx.from && n == tx.nonce then t == tx
                else Held(v.pending, a, n, t)
      ensures Held(Placed(v, tx, local).queue, a, n, t) <==>
                if !Taken(v.pending, tx.from, tx.nonce) && a == tx.from && n == tx.nonce then t == tx
                else Held(v.queue, a, n, t)
    {
      PutHeld(v.pending, tx, a, n, t);
      PutHeld(v.queue, tx, a, n, t);
    }
  }

  lemma PlacedLists(v: View, tx: Transaction, local: bool)
    ensures var v', p, q := Placed(v, tx, local), PartAt(v.pending, tx.from), PartAt(v.queue, tx.from);
            && v'.changes == v.changes && v'.now == v.now
            && v'.pending == (if tx.nonce in p then v.pending[tx.from := p[tx.nonce := tx]] else v.pending)
            && v'.queue == (if tx.nonce in p then v.queue else v.queue[tx.from := q[tx.nonce := tx]])
  {
    hide Swap, Exempted, PartAt, Beaten;
    var exempt := local || tx.from in v.exempt;
    SwapKeeps(v, At(PartAt(v.pending, tx.from), tx.nonce), tx, exempt);
    SwapKeeps(v, At(PartAt(v.queue, tx.from), tx.nonce), tx, exempt);
    ExemptedKeeps(Queued(v, tx, exempt), tx.from);
  }

  lemma SwapKeeps(v: View, old_: Option<Transaction>, tx: Transaction, local: bool)
    ensures var w := Swap(v, old_, tx, local);
            w.pending == v.pending && w.queue == v.queue && w.changes == v.changes && w.now == v.now
  {
    hide Hashes;
  }

  lemma ExemptedKeeps(v: View, a: Address)
    ensures var w := Exempted(v, a);
            w.pending == v.pending && w.queue == v.queue && w.changes == v.changes && w.now == v.now
  {
    hide SentBySome, SentByOthers;
  }

  lemma PutHeld(m: Parts, tx: Transaction, a: Address, n: nat, t: Transaction)
    ensures Held(m[tx.from := PartAt(m, tx.from)[tx.nonce := tx]], a, n, t) <==>
              if a == tx.from && n == tx.nonce then t == tx else Held(m, a, n, t)
  {
  }

  lemma PlacedBeats(v: View, tx: Transaction, local: bool)
    ensures PlacementBeats(v, tx, Placed(v, tx, local))
  {
    hide SentBySome, SentByOthers, Hashes;
  }

  /** What a newcomer meets at its nonce. */
  function Met(v: View, tx: Transaction): Option<Transaction> {
    At(if Taken(v.pending, tx.from, tx.nonce) then PartAt(v.pending, tx.from) else PartAt(v.queue, tx.from), tx.nonce)
  }

  lemma MetGivesWay(v: View, tx: Transaction)
    ensures forall h :: h in Hashes(Met(v, tx)) <==> GivesWay(v, tx, h)
  {
    hide PartAt;
    PartHeld(v.pending, tx.from, tx.nonce);
    PartHeld(v.queue, tx.from, tx.nonce);
  }

  /** The lookup after a swap, and after its account has become exempt. */
  lemma PlacedSwaps(v: View, tx: Transaction, local: bool)
    ensures var w := Swap(v, Met(v, tx), tx, local || tx.from in v.exempt);
            var joins := local && tx.from !in v.exempt && !Taken(v.pending, tx.from, tx.nonce);
            var v', x := Placed(v, tx, local), if joins then Exempted(w, tx.from) else w;
            v'.locals == x.locals && v'.remotes == x.remotes && v'.exempt == x.exempt
  {
    hide Beaten, Swap, PartAt, SentBySome, SentByOthers, Hashes;
    PartHeld(v.pending, tx.from, tx.nonce);
  }

  lemma PlacedSides(v: View, tx: Transaction, local: bool)
    requires tx.hash !in v.remotes
    ensures PlacementSides(v, tx, local, Placed(v, tx, local))
  {
    hide Placed, Swap, Exempted, Met, GivesWay, Hashes;
    var exempt := local || tx.from in v.exempt;
    var w := Swap(v, Met(v, tx), tx, exempt);
    MetGivesWay(v, tx);
    PlacedSwaps(v, tx, local);
    SwapMeans(v, Met(v, tx), tx, exempt);
    ExemptedMeans(w, tx.from);
  }

  lemma SwapMeans(v: View, old_: Option<Transaction>, tx: Transaction, local: bool)
    ensures var w := Swap(v, old_, tx, local);
            && (local ==> tx.hash in w.locals && w.locals[tx.hash] == tx)
            && (!local ==> tx.hash in w.remotes && w.remotes[tx.hash] == tx)
            && (forall h | h != tx.hash :: h in w.locals <==> h in v.locals && h !in Hashes(old_))
            && (forall h | h != tx.hash :: h in w.remotes <==> h in v.remotes && h !in Hashes(old_))
            && (forall h | h != tx.hash && h in w.remotes :: w.remotes[h] == v.remotes[h])
            && (local && tx.hash in w.remotes ==> tx.hash in v.remotes)
            && w.exempt == v.exempt
  {
    hide Hashes;
  }

  lemma ExemptedMeans(v: View, a: Address)
    ensures var w := Exempted(v, a);
            && w.exempt == v.exempt + {a}
            && (forall h :: h in w.remotes <==> h in v.remotes && v.remotes[h].from !in w.exempt)
            && (forall h :: h in w.locals <==> h in v.locals || (h in v.remotes && v.remotes[h].from in w.exempt))
            && (forall h | h in v.locals && h !in v.remotes :: w.locals[h] == v.locals[h])
  {
  }

  // ---------- Why a submission is refused ----------

  /** The pool has room made for `tx` only if its slots would not fit. */
  lemma RoomMadeMeans(config: Config, v: View, s: Submission)
    ensures var full := SlotSum(v.locals + v.remotes) + s.tx.Slots() > config.globalSlots + config.globalQueue;
            var w := RoomMade(config, v, s);
            && (!full ==> w == v)
            && (full ==> w.changes == v.changes + |s.advice.drop|)
            && (full ==> forall h :: h in w.locals + w.remotes <==> h in v.locals + v.remotes && h !in s.advice.drop)
            && w.exempt == v.exempt && w.now == v.now
  {
    hide RemovedAll;
    DroppedMeans(v, s.advice.drop);
  }

  /** What is known is refused first, then what is invalid. A pool that is full refuses a newcomer that is the cheapest
      of all, everything once a quarter of its slots has changed hands since the last run, and a remote one it can make
      no room for. Exempt accounts are spared the first and the last. None of these changes the pool. */
  lemma RefusedIff(config: Config, ctx: Context, v: View, s: Submission, local: bool)
    ensures var o := Added(config, ctx, v, s, local);
            var known := s.tx.hash in v.locals || s.tx.hash in v.remotes;
            var full := SlotSum(v.locals + v.remotes) + s.tx.Slots() > config.globalSlots + config.globalQueue;
            var cheapest := !local && s.tx.from !in v.exempt && s.advice.underpriced;
            var cramped := 4 * v.changes > config.globalSlots
                           || (!local && s.tx.from !in v.exempt && !s.advice.success);
            && (o.err == Some(AlreadyKnown) <==> known)
            && (forall code: nat :: o.err == Some(Invalid(code)) <==> !known && s.invalid == Some(code))
            && (o.err == Some(Underpriced) <==> !known && s.invalid.None? && full && cheapest)
            && (o.err == Some(PoolOverflow) <==> !known && s.invalid.None? && full && !cheapest && cramped)
            && (o.err.Some? && o.err.value != ReplaceUnderpriced ==> o.view == v && !o.replaced)
  {
    hide SlotSum, RoomMade, Placed, Accepts, Site;
  }

  /** What gets that far is refused exactly when what it meets at its nonce, pending or else queued, is not outbid; or
      else it takes its place. */
  lemma OutbidIff(config: Config, ctx: Context, v: View, s: Submission, local: bool)
    requires var o := Added(config, ctx, v, s, local); o.err.None? || o.err.value == ReplaceUnderpriced
    ensures var o, w := Added(config, ctx, v, s, local), RoomMade(config, v, s);
            var a, n := s.tx.from, s.tx.nonce;
            var site := if Taken(w.pending, a, n) then w.pending else w.queue;
            && (o.err.Some? <==> Taken(site, a, n) && !Replaces(ctx, site[a][n], s.tx, config.priceBump))
            && (o.err.Some? ==> o.view == w && !o.replaced)
            && (o.err.None? ==>
                  && PlacementRule(w, s.tx, o.view) && PlacementBeats(w, s.tx, o.view)
                  && PlacementSides(w, s.tx, local, o.view) && (o.replaced <==> Taken(site, a, n)))
  {
    hide PlacementRule, PlacementSides, PlacementBeats, Placed, Replaces, RoomMade, Full;
    RoomMadeMeans(config, v, s);
    PlacedMeans(RoomMade(config, v, s), s.tx, local);
  }

  // ---------- Promoting and demoting ----------

  /** What promotion lets through: nothing stale, nothing with a deprecated gateway fee, and nothing the account cannot
      pay for. */
  ghost predicate Passes(st: ChainState, a: Address, tx: Transaction) {
    tx.nonce >= st.nonce(a) && (st.dropGateway ==> !tx.gatewaySet) && Affordable(st, a, tx)
  }

  /** What a promotion lets through, and why it lets nothing else through. */
  lemma PayableMeans(st: ChainState, a: Address, l: List, n: nat)
    requires ListFor(l, a, false)
    ensures var m := Payable(st, a, l).items;
            && (n in m ==> n in l.items && m[n] == l.items[n] && Passes(st, a, l.items[n]))
            && (n in l.items && n !in m ==>
                  || n < st.nonce(a) || (st.dropGateway && l.items[n].gatewaySet)
                  || TooCostly(st.ctx, LimitsFor(st, a, l), l.items[n]))
  {
    var l1 := ForwardCut(l, st.nonce(a)).list;
    SubsetKeepsOk(l, l1.items);
    var l2 := if st.dropGateway then GatewayCut(l1).list else l1;
    SubsetKeepsOk(l1, l2.items);
    hide TooCostly, Affordable, LimitsFor, Filter;
    SameLimits(st, a, l, l2);
    FilterPartitions(st.ctx, l2, LimitsFor(st, a, l2));
    FilterRemovesCostly(st.ctx, l2, LimitsFor(st, a, l2));
    if n in Payable(st, a, l).items {
      FilteredIsAffordable(st, a, l2, n);
    }
  }

  /** The ready part is a run of consecutive nonces with nothing below it and a gap above it. It is empty exactly when
      everything is above `start`. */
  ghost predicate RunsFrom(m: Items, start: nat, ready: Items) {
    && (forall n | n in ready :: n in m && ready[n] == m[n])
    && (forall k, n, j | k in ready && j in ready && k <= n <= j :: n in ready)
    && (forall k, n | k in ready && n in m && n !in ready :: n > k + 1)
    && (ready == map[] <==> forall n | n in m :: n > start)
  }

  lemma ReadyRuns(m: Items, start: nat)
    ensures RunsFrom(m, start, ReadyPart(m, start))
  {
    var ready := ReadyPart(m, start);
    if m.Keys != {} && Min(m.Keys) <= start {
      assert Min(m.Keys) in ready;
      forall k, n | k in ready && n in m && n !in ready
        ensures n > k + 1
      {
        if n == k + 1 {
          forall i | Min(m.Keys) <= i <= n
            ensures i in m.Keys
          {
            assert InRun(m.Keys, k);
          }
        }
      }
    }
  }

  /** A cap keeps the lowest nonces, and drops some only if as many are left. */
  lemma CapMeans(m: Items, k: nat)
    ensures var low := LowestPart(m, k);
            && |low| <= k
            && (forall n | n in low :: n in m && low[n] == m[n])
            && (forall n, i | n in m && n !in low && i in low :: i < n)
            && (forall n | n in m && n !in low :: |low| == k)
  {
    var low := LowestPart(m, k);
    LowestIsLowerPart(m.Keys, k);
    assert low.Keys == Lowest(m.Keys, k);
    if n :| n in m && n !in low {
      StrictSubset(low.Keys, m.Keys);
    }
  }

  /** Promotion sorts a queue: what becomes pending is the run that starts at or below the next nonce; what stays passes
      too; and what is dropped was stale, or had a deprecated gateway fee, or was too costly, or lay above as many
      others as an account that is not exempt may keep. */
  lemma PromotionMeans(st: ChainState, a: Address, l: List, next: nat, local: bool, cap: nat)
    requires ListFor(l, a, false)
    ensures var plan := PlanPromotion(st, a, l, next, local, cap);
            var ready, rest := plan.ready, plan.rest.items;
            && (forall n | n in ready :: n in l.items && ready[n] == l.items[n] && Passes(st, a, l.items[n]))
            && (forall n | n in rest :: n in l.items && rest[n] == l.items[n] && Passes(st, a, l.items[n]))
            && (forall n | n in rest :: n !in ready)
            && (local || |rest| <= cap)
    ensures var plan := PlanPromotion(st, a, l, next, local, cap);
            forall n | n in l.items && n !in plan.ready && n !in plan.rest.items ::
              || n < st.nonce(a) || (st.dropGateway && l.items[n].gatewaySet)
              || TooCostly(st.ctx, LimitsFor(st, a, l), l.items[n])
              || (!local && |plan.rest.items| == cap && forall k | k in plan.rest.items :: k < n)
    ensures RunsFrom(Payable(st, a, l).items, next, PlanPromotion(st, a, l, next, local, cap).ready)
  {
    hide Payable, Affordable, TooCostly, LimitsFor, RunsFrom, LowestPart, ListFor;
    var m := Payable(st, a, l).items;
    forall n: nat
      ensures n in m ==> n in l.items && m[n] == l.items[n] && Passes(st, a, l.items[n])
      ensures n in l.items && n !in m ==>
                || n < st.nonce(a) || (st.dropGateway && l.items[n].gatewaySet)
                || TooCostly(st.ctx, LimitsFor(st, a, l), l.items[n])
    {
      PayableMeans(st, a, l, n);
    }
    ReadyRuns(m, next);
    CapMeans(NotReadyPart(m, next), cap);
  }

  /** Demotion sorts a pending list: what stays starts at the account's nonce and can be paid; what is dropped was stale
      or too costly; and what goes back to the queue lies above something too costly, or above a missing first nonce. */
  lemma DemotionMeans(st: ChainState, a: Address, l: List)
    requires ListFor(l, a, true)
    ensures var plan := PlanDemotion(st, a, l);
            && (forall n | n in plan.kept ::
                  n in l.items && plan.kept[n] == l.items[n] && n >= st.nonce(a) && Affordable(st, a, l.items[n]))
            && (plan.kept != map[] ==> st.nonce(a) in plan.kept)
            && (forall n | n in plan.requeued ::
                  n in l.items && plan.requeued[n] == l.items[n] && n >= st.nonce(a) && n !in plan.kept)
            && (forall n, k | n in plan.requeued && k in plan.kept :: k < n)
    ensures var plan := PlanDemotion(st, a, l);
            && (forall n | n in l.items && n !in plan.kept && n !in plan.requeued ::
                  n < st.nonce(a) || TooCostly(st.ctx, LimitsFor(st, a, l), l.items[n]))
            && (forall n | n in plan.requeued ::
                  || (plan.kept == map[] && st.nonce(a) !in plan.requeued)
                  || exists k :: k in l.items && st.nonce(a) <= k < n && k !in plan.kept && k !in plan.requeued)
  {
    hide Affordable, TooCostly, LimitsFor, Partition, CutInOrder, PlanDemotion, Filter;
    var l1 := ForwardCut(l, st.nonce(a)).list;
    SubsetKeepsOk(l, l1.items);
    SameLimits(st, a, l, l1);
    var lim := LimitsFor(st, a, l1);
    var o := Filter(st.ctx, l1, lim);
    FilterPartitions(st.ctx, l1, lim);
    FilterRemovesCostly(st.ctx, l1, lim);
    forall n | n in o.list.items
      ensures n in l1.items && Affordable(st, a, l1.items[n])
    {
      FilteredIsAffordable(st, a, l1, n);
    }
    PlanIs(st, a, l, o);
    KeptAndRequeued(l1.items, st.nonce(a), o, PlanDemotion(st, a, l));
    LeftOut(l1.items, st.nonce(a), o, PlanDemotion(st, a, l));
  }

  lemma PlanIs(st: ChainState, a: Address, l: List, o: FilterOutcome)
    requires var l1 := ForwardCut(l, st.nonce(a)).list; o == Filter(st.ctx, l1, LimitsFor(st, a, l1))
    ensures Splits(o, st.nonce(a), PlanDemotion(st, a, l))
  {
    hide Filter;
  }

  /** Without its first nonce, all of a filtered list goes back. */
  ghost predicate Splits(o: FilterOutcome, nonce: nat, plan: Demotion) {
    if o.list.items != map[] && nonce !in o.list.items
    then plan.kept == map[] && plan.requeued == o.invalids + o.list.items
    else plan.kept == o.list.items && plan.requeued == o.invalids
  }

  lemma KeptAndRequeued(m: Items, nonce: nat, o: FilterOutcome, plan: Demotion)
    requires Partition(m, o) && CutInOrder(o) && Splits(o, nonce, plan)
    ensures forall n | n in plan.kept :: n in o.list.items && n in m && plan.kept[n] == m[n]
    ensures plan.kept != map[] ==> nonce in plan.kept
    ensures forall n | n in plan.requeued :: n in m && plan.requeued[n] == m[n] && n !in plan.kept
    ensures forall n, k | n in plan.requeued && k in plan.kept :: k < n
  {
  }

  lemma LeftOut(m: Items, nonce: nat, o: FilterOutcome, plan: Demotion)
    requires Partition(m, o) && CutInOrder(o) && Splits(o, nonce, plan) && forall n | n in m :: n >= nonce
    ensures forall n | n in m && n !in plan.kept && n !in plan.requeued :: n in o.removed
    ensures forall n | n in plan.requeued ::
              || (plan.kept == map[] && nonce !in plan.requeued)
              || exists k :: k in m && k < n && k !in plan.kept && k !in plan.requeued
  {
    forall n | n in plan.requeued && plan.kept != map[]
      ensures exists k :: k in m && k < n && k !in plan.kept && k !in plan.requeued
    {
      var k :| k in o.removed && k < n;
      assert k in m;
    }
  }

  lemma SameLimits(st: ChainState, a: Address, l: List, l': List)
    requires l'.feecaps == l.feecaps
    ensures LimitsFor(st, a, l') == LimitsFor(st, a, l)
  {
  }

  lemma FilterRemovesCostly(ctx: Context, l: List, lim: Limits)
    ensures forall n | n in Filter(ctx, l, lim).removed :: n in l.items && TooCostly(ctx, lim, l.items[n])
    ensures !l.strict ==> Filter(ctx, l, lim).invalids == map[]
  {
    hide TooCostly;
  }

  /** A heartbeat goes with the last queued transaction, and is refreshed when something is promoted. */
  lemma PromotionBeats(st: ChainState, locals: set<Address>, cap: nat, accounts: set<Address>,
                       nonces: map<Address, nat>, s: Stage, s': Stage, a: Address)
    requires PromotedStage(st, locals, cap, accounts, nonces, s, s') && NoneEmpty(s'.queue) && Beating(s.queue, s.beats)
    requires a in accounts && a in s.queue
    ensures a in nonces
    ensures var plan := PlanPromotion(st, a, s.queue[a], nonces[a], a in locals, cap);
            && (a in s'.beats <==> a in s'.queue)
            && (a in s'.beats ==> s'.beats[a] == if plan.ready != map[] then s.now else s.beats[a])
  {
    hide PlanPromotion;
  }

  /** Demotion gives one to an account that gets something queued and has none, and changes none. */
  lemma DemotionBeats(st: ChainState, s: Stage, s': Stage, a: Address)
    requires DemotedStage(st, s, s') && a in s.pending
    ensures a in s.beats ==> a in s'.beats && s'.beats[a] == s.beats[a]
    ensures a !in s.beats ==>
              if PlanDemotion(st, a, s.pending[a]).requeued == map[] then a !in s'.beats
              else a in s'.beats && s'.beats[a] == s.now
  {
    hide PlanDemotion, Demoted;
    assert BeatAt(s'.beats, a) == DemotedBeat(st, a, s.pending[a], BeatAt(s.beats, a), s.now);
  }

  /** Nonces are 64 bits wide. */
  lemma NextMeans(n: nat)
    requires n <= 0xffff_ffff_ffff_ffff
    ensures Next(n) == if n == 0xffff_ffff_ffff_ffff then 0 else n + 1
  {
  }
}
