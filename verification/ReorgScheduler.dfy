/** The pool's reorg scheduler: requests are batched while a background run is active, and each requester gets a channel
    that closes when its request has been served. */
module ReorgSchedulers {
  import opened Options
  import opened Types

  /** Channels and headers are opaque identities. */
  type Channel = nat
  type Head = nat

  datatype Reset = Reset(oldHead: Head, newHead: Head)
  datatype Request = ResetRequest(oldHead: Head, newHead: Head) | PromoteRequest(accounts: set<Address>)

  /** Events by account and nonce. */
  type Events = map<Address, map<nat, Transaction>>

  /** A background run with the inputs it was launched with. */
  datatype Run = Run(done: Channel, reset: Option<Reset>, dirty: Option<set<Address>>, events: Events)

  /** What was asked for between two launches, in order. */
  datatype Batch = Batch(done: Channel, requests: seq<Request>, txs: seq<Transaction>)

  // ---- What a batch adds up to ----

  /** From the first old head to the last new head. */
  function ResetOf(rs: seq<Request>): Option<Reset> {
    if rs == [] then None
    else
      var before, last := ResetOf(rs[..|rs| - 1]), rs[|rs| - 1];
      match last
      case PromoteRequest(_) => before
      case ResetRequest(oldHead, newHead) => if before.None? then Some(Reset(oldHead, newHead))
        else Some(before.value.(newHead := newHead))
  }

  function DirtyOf(rs: seq<Request>): Option<set<Address>> {
    if rs == [] then None
    else
      var before, last := DirtyOf(rs[..|rs| - 1]), rs[|rs| - 1];
      match last
      case PromoteRequest(accounts) => if before.None? then Some(accounts) else Some(before.value + accounts)
      case ResetRequest(_, _) => before
  }

  function PutEvent(events: Events, tx: Transaction): Events {
    events[tx.from := (if tx.from in events then events[tx.from] else map[])[tx.nonce := tx]]
  }

  function PutEvents(events: Events, txs: seq<Transaction>): Events {
    if txs == [] then events else PutEvent(PutEvents(events, txs[..|txs| - 1]), txs[|txs| - 1])
  }

  function EventsOf(txs: seq<Transaction>): Events {
    PutEvents(map[], txs)
  }

  lemma {:induction false} NoReset(rs: seq<Request>)
    ensures ResetOf(rs).None? <==> forall i | 0 <= i < |rs| :: rs[i].PromoteRequest?
    decreases |rs|
  {
    if rs != [] {
      var init := rs[..|rs| - 1];
      NoReset(init);
      assert forall i | 0 <= i < |init| :: init[i] == rs[i];
    }
  }

  /** The coalesced reset starts at the first requested old head. */
  lemma {:induction false} FirstOldHead(rs: seq<Request>, i: nat)
    requires i < |rs| && rs[i].ResetRequest? && forall k | 0 <= k < i :: rs[k].PromoteRequest?
    ensures ResetOf(rs).Some? && ResetOf(rs).value.oldHead == rs[i].oldHead
    decreases |rs|
  {
    var init := rs[..|rs| - 1];
    if i < |rs| - 1 {
      FirstOldHead(init, i);
    } else {
      NoReset(init);
      assert forall k | 0 <= k < |init| :: init[k] == rs[k];
    }
  }

  /** The coalesced reset ends at the last requested new head. */
  lemma {:induction false} LastNewHead(rs: seq<Request>, j: nat)
    requires j < |rs| && rs[j].ResetRequest? && forall k | j < k < |rs| :: rs[k].PromoteRequest?
    ensures ResetOf(rs).Some? && ResetOf(rs).value.newHead == rs[j].newHead
    decreases |rs|
  {
    if j < |rs| - 1 {
      var init := rs[..|rs| - 1];
      assert forall k | 0 <= k < |init| :: init[k] == rs[k];
      LastNewHead(init, j);
    }
  }

  /** The dirty accounts are exactly those of the promote requests. */
  lemma {:induction false} DirtyCovers(rs: seq<Request>, a: Address)
    ensures DirtyOf(rs).Some? && a in DirtyOf(rs).value <==>
              exists i | 0 <= i < |rs| && rs[i].PromoteRequest? :: a in rs[i].accounts
    ensures DirtyOf(rs).None? <==> forall i | 0 <= i < |rs| :: rs[i].ResetRequest?
    decreases |rs|
  {
    if rs != [] {
      var n := |rs| - 1;
      var init := rs[..n];
      DirtyCovers(init, a);
      assert forall i | 0 <= i < n :: init[i] == rs[i];
      if exists i :: 0 <= i < n && init[i].PromoteRequest? && a in init[i].accounts {
        var i :| 0 <= i < n && init[i].PromoteRequest? && a in init[i].accounts;
        assert rs[i].PromoteRequest? && a in rs[i].accounts;
      }
    }
  }

  predicate Held(events: Events, tx: Transaction) {
    tx.from in events && tx.nonce in events[tx.from] && events[tx.from][tx.nonce] == tx
  }

  /** Both are events of one account and nonce, of which only the later is kept. */
  predicate SameSlot(x: Transaction, tx: Transaction) {
    x.from == tx.from && x.nonce == tx.nonce
  }

  /** `tx` is among `txs`, and no later one takes its account and nonce. */
  ghost predicate Latest(txs: seq<Transaction>, tx: Transaction) {
    exists i | 0 <= i < |txs| && txs[i] == tx :: forall j | i < j < |txs| :: !SameSlot(txs[j], tx)
  }

  ghost predicate NoneAt(txs: seq<Transaction>, tx: Transaction) {
    forall i | 0 <= i < |txs| :: !SameSlot(txs[i], tx)
  }

  lemma LatestMore(txs: seq<Transaction>, last: Transaction, tx: Transaction)
    ensures Latest(txs + [last], tx) <==> last == tx || (Latest(txs, tx) && !SameSlot(last, tx))
    ensures NoneAt(txs + [last], tx) <==> NoneAt(txs, tx) && !SameSlot(last, tx)
  {
    var all, n := txs + [last], |txs|;
    if last == tx {
      assert all[n] == tx;
    } else {
      if Latest(txs, tx) && !SameSlot(last, tx) {
        var i :| 0 <= i < n && txs[i] == tx && forall j | i < j < n :: !SameSlot(txs[j], tx);
        assert all[i] == tx && forall j | i < j < |all| :: !SameSlot(all[j], tx);
      }
      if Latest(all, tx) {
        var i :| 0 <= i < |all| && all[i] == tx && forall j | i < j < |all| :: !SameSlot(all[j], tx);
        assert i < n && txs[i] == tx && !SameSlot(all[n], tx);
        assert forall j | i < j < n :: all[j] == txs[j];
      }
    }
    assert forall i | 0 <= i < n :: all[i] == txs[i];
    assert all[n] == last;
  }

  /** An event is held exactly when it is the latest put in for its account and nonce, or was there before and none
      was. */
  lemma {:induction false} EventsKept(events: Events, txs: seq<Transaction>, tx: Transaction)
    ensures Held(PutEvents(events, txs), tx) <==> Latest(txs, tx) || (Held(events, tx) && NoneAt(txs, tx))
    decreases |txs|
  {
    if txs != [] {
      var n := |txs| - 1;
      hide Latest, NoneAt;
      EventsKept(events, txs[..n], tx);
      LatestMore(txs[..n], txs[n], tx);
      assert txs[..n] + [txs[n]] == txs;
    }
  }

  // ---- The scheduler ----

  /** A run has exactly the inputs of its batch. */
  ghost predicate Serves(run: Run, batch: Batch) {
    && run.done == batch.done && batch.requests != []
    && run.reset == ResetOf(batch.requests) && run.dirty == DirtyOf(batch.requests) && run.events == EventsOf(batch.txs)
  }

  function AllRequests(bs: seq<Batch>): seq<Request> {
    if bs == [] then [] else AllRequests(bs[..|bs| - 1]) + bs[|bs| - 1].requests
  }

  function AllTxs(bs: seq<Batch>): seq<Transaction> {
    if bs == [] then [] else AllTxs(bs[..|bs| - 1]) + bs[|bs| - 1].txs
  }

  /** Every launched batch has its run, and all runs but the current one are over. */
  ghost predicate RunsOk(runs: seq<Run>, batches: seq<Batch>, curDone: Option<Channel>, closed: set<Channel>) {
    && |runs| == |batches|
    && (forall i | 0 <= i < |runs| :: Serves(runs[i], batches[i]))
    && (curDone.Some? ==> runs != [] && curDone.value == runs[|runs| - 1].done)
    && (forall i | 0 <= i < |runs| && !(curDone.Some? && i == |runs| - 1) :: runs[i].done in closed)
  }

  /** Channels are used once, and the channel of the current batch is open until shutdown. */
  ghost predicate ChannelsOk(runs: seq<Run>, nextDone: Channel, closed: set<Channel>, stopped: bool,
                             curDone: Option<Channel>) {
    && (forall i, j | 0 <= i < j < |runs| :: runs[i].done != runs[j].done)
    && (forall i | 0 <= i < |runs| :: runs[i].done < nextDone)
    && (forall c | c in closed :: IsRun(runs, c) || (stopped && c == nextDone))
    && (nextDone in closed <==> stopped) && (stopped ==> curDone.None?)
  }

  ghost predicate IsRun(runs: seq<Run>, c: Channel) {
    exists i :: 0 <= i < |runs| && runs[i].done == c
  }

  lemma OneMoreRun(runs: seq<Run>, batches: seq<Batch>, closed: set<Channel>, nextDone: Channel, run: Run, batch: Batch)
    requires RunsOk(runs, batches, None, closed) && ChannelsOk(runs, nextDone, closed, false, None)
    requires Serves(run, batch) && run.done == nextDone
    ensures RunsOk(runs + [run], batches + [batch], Some(nextDone), closed)
    ensures ChannelsOk(runs + [run], nextDone + 1, closed, false, Some(nextDone))
    ensures AllRequests(batches + [batch]) == AllRequests(batches) + batch.requests
    ensures AllTxs(batches + [batch]) == AllTxs(batches) + batch.txs
  {
    assert (batches + [batch])[..|batches|] == batches;
    forall c | c in closed
      ensures IsRun(runs + [run], c)
    {
      var i :| 0 <= i < |runs| && runs[i].done == c;
      assert (runs + [run])[i].done == c;
    }
    assert nextDone + 1 !in closed;
  }

  lemma EmptyBatch()
    ensures ResetOf([]) == None && DirtyOf([]) == None && EventsOf([]) == map[]
  {
  }

  lemma OneMoreRequest(rs: seq<Request>, r: Request)
    ensures ResetOf(rs + [r]) == if r.PromoteRequest? then ResetOf(rs) else
                                 if ResetOf(rs).None? then Some(Reset(r.oldHead, r.newHead))
                                   else Some(ResetOf(rs).value.(newHead := r.newHead))
    ensures DirtyOf(rs + [r]) == if r.ResetRequest? then DirtyOf(rs) else
                                 if DirtyOf(rs).None? then Some(r.accounts) else Some(DirtyOf(rs).value + r.accounts)
  {
    assert (rs + [r])[..|rs|] == rs;
  }

  lemma OneMoreEvent(txs: seq<Transaction>, tx: Transaction)
    ensures EventsOf(txs + [tx]) == PutEvent(EventsOf(txs), tx)
  {
    assert (txs + [tx])[..|txs|] == txs;
  }

  class ReorgScheduler {
    var curDone: Option<Channel>
    var nextDone: Channel
    var launchNextRun: bool
    var reset: Option<Reset>
    var dirty: Option<set<Address>>
    var events: Events
    var closed: set<Channel>
    var stopped: bool
    ghost var runs: seq<Run>
    ghost var batches: seq<Batch>
    ghost var batch: Batch

    ghost predicate Valid()
      reads this
    {
      InputsOk() && RunsOk(runs, batches, curDone, closed) && ChannelsOk(runs, nextDone, closed, stopped, curDone)
    }

    /** The loop variables hold what the current batch adds up to, and a batch with a request is due to be launched. */
    ghost predicate InputsOk()
      reads `reset, `dirty, `events, `batch, `nextDone, `launchNextRun
    {
      && reset == ResetOf(batch.requests) && dirty == DirtyOf(batch.requests) && events == EventsOf(batch.txs)
      && batch.done == nextDone && (launchNextRun <==> batch.requests != [])
    }

    /** Everything ever requested or queued, in order: launched batches, then the current one. */
    ghost function Requests(): seq<Request>
      reads `batches, `batch
    {
      AllRequests(batches) + batch.requests
    }

    ghost function Queued(): seq<Transaction>
      reads `batches, `batch
    {
      AllTxs(batches) + batch.txs
    }

    constructor ()
      ensures Valid() && !stopped && Requests() == [] && Queued() == []
    {
      curDone, nextDone, launchNextRun, reset, dirty, events := None, 0, false, None, None, map[];
      closed, stopped, runs, batches, batch := {}, false, [], [], Batch(0, [], []);
    }

    /** The head of the loop: with no run active and a request waiting, a run starts on everything collected. */
    method Launch()
      requires Valid() && !stopped
      modifies this
      ensures Valid() && !stopped && closed == old(closed) && Requests() == old(Requests()) && Queued() == old(Queued())
      ensures if old(curDone).None? && old(batch).requests != []
              then |runs| == |old(runs)| + 1 && batches == old(batches) + [old(batch)] && batch.requests == []
                && curDone == Some(old(nextDone))
              else runs == old(runs) && batches == old(batches) && batch == old(batch) && curDone == old(curDone)
    {
      hide RunsOk, ChannelsOk, AllRequests, AllTxs, ResetOf, DirtyOf, EventsOf;
      if curDone.None? && launchNextRun {
        EmptyBatch();
        OneMoreRun(runs, batches, closed, nextDone, Run(nextDone, reset, dirty, events), batch);
        runs, batches := runs + [Run(nextDone, reset, dirty, events)], batches + [batch];
        batch := Batch(nextDone + 1, [], []);
        curDone, nextDone := Some(nextDone), nextDone + 1;
        launchNextRun := false;
        reset, dirty := None, None;
        events := map[];
      }
    }

    method RequestReset(oldHead: Head, newHead: Head) returns (done: Channel)
      requires Valid() && !stopped
      modifies `reset, `launchNextRun, `batch
      ensures Valid() && done == batch.done && done !in closed
      ensures batch == old(batch).(requests := old(batch).requests + [ResetRequest(oldHead, newHead)])
    {
      hide RunsOk, ResetOf, DirtyOf;
      if reset.None? {
        reset := Some(Reset(oldHead, newHead));
      } else {
        reset := Some(reset.value.(newHead := newHead));
      }
      OneMoreRequest(batch.requests, ResetRequest(oldHead, newHead));
      batch := batch.(requests := batch.requests + [ResetRequest(oldHead, newHead)]);
      launchNextRun := true;
      done := nextDone;
    }

    method RequestPromote(accounts: set<Address>) returns (done: Channel)
      requires Valid() && !stopped
      modifies `dirty, `launchNextRun, `batch
      ensures Valid() && done == batch.done && done !in closed
      ensures batch == old(batch).(requests := old(batch).requests + [PromoteRequest(accounts)])
    {
      hide RunsOk, ResetOf, DirtyOf;
      if dirty.None? {
        dirty := Some(accounts);
      } else {
        dirty := Some(dirty.value + accounts);
      }
      OneMoreRequest(batch.requests, PromoteRequest(accounts));
      batch := batch.(requests := batch.requests + [PromoteRequest(accounts)]);
      launchNextRun := true;
      done := nextDone;
    }

    /** Queues an event without asking for a run. */
    method QueueTxEvent(tx: Transaction)
      requires Valid() && !stopped
      modifies `events, `batch
      ensures Valid() && batch == old(batch).(txs := old(batch).txs + [tx])
    {
      hide RunsOk, ChannelsOk, EventsOf, ResetOf, DirtyOf;
      OneMoreEvent(batch.txs, tx);
      if tx.from !in events {
        events := events[tx.from := map[]];
      }
      var mine: map<nat, Transaction> := events[tx.from];
      events := events[tx.from := mine[tx.nonce := tx]];
      batch := batch.(txs := batch.txs + [tx]);
    }

    /** The background run ends and closes its channel. */
    method RunEnds()
      requires Valid() && curDone.Some?
      modifies `closed
      ensures Valid() && closed == old(closed) + {curDone.value}
    {
      closed := closed + {curDone.value};
    }

    /** The loop sees that the current run is over. */
    method ObserveDone()
      requires Valid() && curDone.Some? && curDone.value in closed
      modifies `curDone
      ensures Valid() && curDone.None?
    {
      curDone := None;
    }

    /** Shutdown: the current run is waited for, and those still waiting are let go without one. */
    method Shutdown()
      requires Valid() && !stopped && (curDone.Some? ==> curDone.value in closed)
      modifies `curDone, `closed, `stopped
      ensures Valid() && stopped && curDone.None? && closed == old(closed) + {nextDone}
    {
      curDone := None;
      closed := closed + {nextDone};
      stopped := true;
    }
  }

  /** At most one run is active at any time. */
  lemma OneRunAtATime(s: ReorgScheduler, i: nat, j: nat)
    requires s.Valid() && i < |s.runs| && j < |s.runs| && s.runs[i].done !in s.closed && s.runs[j].done !in s.closed
    ensures i == j && s.curDone == Some(s.runs[i].done)
  {
  }

  /** A requester's channel is closed only once a run on its whole batch was made, or by the shutdown. */
  lemma ClosedMeansServed(s: ReorgScheduler, c: Channel) returns (i: nat)
    requires s.Valid() && c in s.closed && !(s.stopped && c == s.nextDone)
    ensures i < |s.runs| && s.runs[i].done == c && Serves(s.runs[i], s.batches[i])
    ensures forall r | r in s.batches[i].requests && r.PromoteRequest? ::
              s.runs[i].dirty.Some? && r.accounts <= s.runs[i].dirty.value
    ensures (exists r | r in s.batches[i].requests :: r.ResetRequest?) ==>
              && s.runs[i].reset.Some?
              && FirstReset(s.batches[i].requests, s.runs[i].reset.value.oldHead)
              && LastReset(s.batches[i].requests, s.runs[i].reset.value.newHead)
  {
    i :| 0 <= i < |s.runs| && s.runs[i].done == c;
    var rs := s.batches[i].requests;
    forall r | r in rs && r.PromoteRequest?
      ensures s.runs[i].dirty.Some? && r.accounts <= s.runs[i].dirty.value
    {
      var k :| 0 <= k < |rs| && rs[k] == r;
      forall a | a in r.accounts
        ensures s.runs[i].dirty.Some? && a in s.runs[i].dirty.value
      {
        DirtyCovers(rs, a);
      }
      DirtyCovers(rs, 0);
    }
    if exists r | r in rs :: r.ResetRequest? {
      ResetEnds(rs);
    }
  }

  /** The first reset asked for starts at `oldHead`. */
  ghost predicate FirstReset(rs: seq<Request>, oldHead: Head) {
    exists i | 0 <= i < |rs| && rs[i].ResetRequest? && rs[i].oldHead == oldHead :: forall k | 0 <= k < i ::
        rs[k].PromoteRequest?
  }

  /** The last reset asked for ends at `newHead`. */
  ghost predicate LastReset(rs: seq<Request>, newHead: Head) {
    exists j | 0 <= j < |rs| && rs[j].ResetRequest? && rs[j].newHead == newHead :: forall k | j < k < |rs| ::
        rs[k].PromoteRequest?
  }

  lemma {:induction false} ResetEnds(rs: seq<Request>)
    ensures ResetOf(rs).Some? <==> exists r | r in rs :: r.ResetRequest?
    ensures ResetOf(rs).Some? ==> FirstReset(rs, ResetOf(rs).value.oldHead) && LastReset(rs, ResetOf(rs).value.newHead)
  {
    NoReset(rs);
    if ResetOf(rs).Some? {
      var i := 0;
      while rs[i].PromoteRequest?
        invariant 0 <= i < |rs| && forall k | 0 <= k < i :: rs[k].PromoteRequest?
        decreases |rs| - i
      {
        if i == |rs| - 1 { assert false; }
        i := i + 1;
      }
      FirstOldHead(rs, i);
      var j := |rs| - 1;
      while rs[j].PromoteRequest?
        invariant 0 <= j < |rs| && forall k | j < k < |rs| :: rs[k].PromoteRequest?
        decreases j
      {
        if j == 0 { assert false; }
        j := j - 1;
      }
      LastNewHead(rs, j);
    }
  }

  datatype Action =
    | AskReset(oldHead: Head, newHead: Head)
    | AskPromote(accounts: set<Address>)
    | Announce(tx: Transaction)
    | Finish
    | Observe
    | Stop

  /** The actions up to the shutdown, if there is one. */
  function Before(actions: seq<Action>): seq<Action> {
    if actions == [] || actions[0].Stop? then [] else [actions[0]] + Before(actions[1..])
  }

  function RequestsIn(actions: seq<Action>): seq<Request> {
    if actions == [] then []
    else
      var rest, last := RequestsIn(actions[..|actions| - 1]), actions[|actions| - 1];
      match last
      case AskReset(o, n) => rest + [ResetRequest(o, n)]
      case AskPromote(accounts) => rest + [PromoteRequest(accounts)]
      case _ => rest
  }

  function AnnouncedIn(actions: seq<Action>): seq<Transaction> {
    if actions == [] then []
    else
      var rest, last := AnnouncedIn(actions[..|actions| - 1]), actions[|actions| - 1];
      if last.Announce? then rest + [last.tx] else rest
  }

  /** One turn of the loop, or the end of the background run, where it can happen at all. */
  method Turn(s: ReorgScheduler, action: Action)
    requires s.Valid() && !s.stopped
    modifies s
    ensures s.Valid() && (s.stopped <==> action.Stop?)
    ensures s.Requests() == old(s.Requests()) + RequestsIn([action])
    ensures s.Queued() == old(s.Queued()) + AnnouncedIn([action])
    ensures s.stopped ==> s.nextDone in s.closed && s.curDone.None?
  {
    hide RunsOk, ChannelsOk, ReorgScheduler.InputsOk;
    assert [action][..0] == [];
    if action.Finish? {
      if s.curDone.Some? { s.RunEnds(); }
    } else {
      s.Launch();
      match action
      case AskReset(o, n) =>
        var _ := s.RequestReset(o, n);
      case AskPromote(accounts) =>
        var _ := s.RequestPromote(accounts);
      case Announce(tx) =>
        s.QueueTxEvent(tx);
      case Observe =>
        if s.curDone.Some? && s.curDone.value in s.closed { s.ObserveDone(); }
      case Stop =>
        if s.curDone.Some? { s.RunEnds(); }
        s.Shutdown();
    }
  }

  /** Over every run of the loop, the batches hold exactly what was asked for, in order, nothing lost or repeated.
      After a shutdown every channel ever given out is closed. */
  method Play(actions: seq<Action>) returns (s: ReorgScheduler)
    ensures fresh(s) && s.Valid() && (s.stopped <==> Stop in actions)
    ensures s.Requests() == RequestsIn(Before(actions)) && s.Queued() == AnnouncedIn(Before(actions))
    ensures s.stopped ==> s.batch.done in s.closed && forall i | 0 <= i < |s.runs| :: s.runs[i].done in s.closed
  {
    hide RunsOk, ChannelsOk, RequestsIn, AnnouncedIn, Before;
    s := new ReorgScheduler();
    NothingDone();
    BeforeAt(actions, 0);
    var i := 0;
    while i < |actions| && !s.stopped
      invariant 0 <= i <= |actions| && fresh(s) && s.Valid() && (s.stopped ==> i > 0 && actions[i - 1].Stop?)
      invariant forall k | 0 <= k < i - (if s.stopped then 1 else 0) :: !actions[k].Stop?
      invariant var n := i - (if s.stopped then 1 else 0);
                s.Requests() == RequestsIn(actions[..n]) && s.Queued() == AnnouncedIn(actions[..n])
      invariant s.stopped ==> s.nextDone in s.closed && s.curDone.None?
    {
      OneMoreAction(actions, i);
      Turn(s, actions[i]);
      i := i + 1;
    }
    if s.stopped { AllOver(s); BeforeAt(actions, i - 1); } else { BeforeAt(actions, i); }
  }

  lemma NothingDone()
    ensures RequestsIn([]) == [] && AnnouncedIn([]) == []
  {
  }

  lemma OneMoreAction(actions: seq<Action>, i: nat)
    requires i < |actions|
    ensures RequestsIn(actions[..i + 1]) == RequestsIn(actions[..i]) + RequestsIn([actions[i]])
    ensures AnnouncedIn(actions[..i + 1]) == AnnouncedIn(actions[..i]) + AnnouncedIn([actions[i]])
    ensures actions[i].Stop? ==> RequestsIn([actions[i]]) == [] && AnnouncedIn([actions[i]]) == []
  {
    assert actions[..i + 1][..i] == actions[..i] && [actions[i]][..0] == [];
  }

  /** What comes before the shutdown, if the first `i` actions are not one and the next is one or missing. */
  lemma {:induction false} BeforeAt(actions: seq<Action>, i: nat)
    requires i <= |actions| && forall k | 0 <= k < i :: !actions[k].Stop?
    ensures i == |actions| || actions[i].Stop? ==> Before(actions) == actions[..i]
    decreases i
  {
    if i > 0 {
      BeforeAt(actions[1..], i - 1);
      assert actions[..i] == [actions[0]] + actions[1..][..i - 1];
    }
  }

  /** Nothing waits for ever: once runs end and the loop turns, every request made so far has been served. */
  method Drain(s: ReorgScheduler)
    requires s.Valid() && !s.stopped
    modifies s
    ensures s.Valid() && !s.stopped && s.Requests() == old(s.Requests()) && s.Queued() == old(s.Queued())
    ensures s.batch.requests == [] && forall i | 0 <= i < |s.runs| :: s.runs[i].done in s.closed
  {
    hide RunsOk, ChannelsOk, ReorgScheduler.InputsOk;
    Cycle(s);
    Cycle(s);
    AllOver(s);
  }

  /** The loop launches what it can and sees the run through. */
  method Cycle(s: ReorgScheduler)
    requires s.Valid() && !s.stopped
    modifies s
    ensures s.Valid() && !s.stopped && s.Requests() == old(s.Requests()) && s.Queued() == old(s.Queued())
    ensures s.curDone.None? && (old(s.curDone).None? ==> s.batch.requests == [])
  {
    hide RunsOk, ChannelsOk, ReorgScheduler.InputsOk, AllRequests, AllTxs;
    s.Launch();
    if s.curDone.Some? {
      s.RunEnds();
      s.ObserveDone();
    }
  }

  lemma AllOver(s: ReorgScheduler)
    requires s.Valid() && s.curDone.None?
    ensures forall i | 0 <= i < |s.runs| :: s.runs[i].done in s.closed
  {
  }
}
