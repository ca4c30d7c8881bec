/** Event feed: one value is sent to every subscribed channel, over a slice of select cases that is permuted in place
    while a prefix of the same storage tracks the subscriptions still to be served. */
module Feeds {
  /** Channels are identities; 0 is the removal channel, always the first select case. A channel may be subscribed more
      than once. */
  type Channel = nat

  const FIRST_SUB_SEND_CASE := 1

  /** What happens during a Send: a delivery, or the removal of a subscription that was still waiting or already
      served. */
  datatype Event = Deliver(channel: Channel) | Remove(channel: Channel, waiting: bool)

  function Swapped(cs: seq<Channel>, i: nat, j: nat): seq<Channel>
    requires i < |cs| && j < |cs|
  {
    cs[i := cs[j]][j := cs[i]]
  }

  function Without(cs: seq<Channel>, i: nat): seq<Channel>
    requires i < |cs|
  {
    cs[..i] + cs[i + 1..]
  }

  /** To which channels the log delivers, with multiplicity. */
  ghost function Delivered(log: seq<Event>): multiset<Channel> {
    if log == [] then multiset{}
    else
      var last := log[|log| - 1];
      Delivered(log[..|log| - 1]) + if last.Deliver? then multiset{last.channel} else multiset{}
  }

  ghost function Removed(log: seq<Event>): multiset<Channel> {
    if log == [] then multiset{}
    else
      var last := log[|log| - 1];
      Removed(log[..|log| - 1]) + if last.Remove? then multiset{last.channel} else multiset{}
  }

  /** Which were removed before they were served. */
  ghost function Missed(log: seq<Event>): multiset<Channel> {
    if log == [] then multiset{}
    else
      var last := log[|log| - 1];
      Missed(log[..|log| - 1]) + if last.Remove? && last.waiting then multiset{last.channel} else multiset{}
  }

  lemma LogGrows(log: seq<Event>, e: Event)
    ensures Delivered(log + [e]) == Delivered(log) + if e.Deliver? then multiset{e.channel} else multiset{}
    ensures Removed(log + [e]) == Removed(log) + if e.Remove? then multiset{e.channel} else multiset{}
    ensures Missed(log + [e]) == Missed(log) + if e.Remove? && e.waiting then multiset{e.channel} else multiset{}
  {
    assert (log + [e])[..|log|] == log;
  }

  lemma {:induction false} MissedWereRemoved(log: seq<Event>)
    ensures Missed(log) <= Removed(log)
    decreases |log|
  {
    if log != [] { MissedWereRemoved(log[..|log| - 1]); }
  }

  /** Up to any point, whatever has been removed had been served by then or was removed waiting: nothing is served after
      its removal. */
  ghost predicate InOrder(log: seq<Event>) {
    forall k | 0 <= k <= |log| :: Removed(log[..k]) <= Delivered(log[..k]) + Missed(log[..k])
  }

  /** Appending keeps the order when it holds for the whole. */
  lemma OrderGrows(log: seq<Event>, e: Event)
    requires InOrder(log) && Removed(log + [e]) <= Delivered(log + [e]) + Missed(log + [e])
    ensures InOrder(log + [e])
  {
    hide Removed, Delivered, Missed;
    var more := log + [e];
    forall k | 0 <= k <= |more|
      ensures Removed(more[..k]) <= Delivered(more[..k]) + Missed(more[..k])
    {
      if k <= |log| {
        assert more[..k] == log[..k];
      } else {
        assert more[..k] == more;
      }
    }
  }

  /** Those that wait are among those still held, so those removed are among those served or missed. */
  lemma WaitingAreHeld(cs: seq<Channel>, m: nat, start: multiset<Channel>, log: seq<Event>)
    requires FIRST_SUB_SEND_CASE <= m <= |cs|
    requires multiset(cs[1..m]) + Delivered(log) + Missed(log) == start
    requires multiset(cs[1..]) + Removed(log) == start
    ensures Removed(log) <= Delivered(log) + Missed(log)
  {
    hide Removed, Delivered, Missed;
    assert cs[1..] == cs[1..m] + cs[m..];
    var waiting, held, d, r := multiset(cs[1..m]), multiset(cs[1..]), Delivered(log) + Missed(log), Removed(log);
    assert waiting <= held;
    forall c
      ensures r[c] <= d[c]
    {
      assert (waiting + Delivered(log) + Missed(log))[c] == start[c] == (held + r)[c];
    }
  }

  /** State of a Send over the subscriptions `start`: those in `cs[1..m]` wait, the others have been served or were
      removed waiting; and those in `cs[1..]` are all that have not been removed. */
  ghost predicate Tracking(cs: seq<Channel>, m: nat, start: multiset<Channel>, log: seq<Event>) {
    && FIRST_SUB_SEND_CASE <= m <= |cs| && cs[0] == 0 && 0 !in cs[1..]
    && multiset(cs[1..m]) + Delivered(log) + Missed(log) == start
    && multiset(cs[1..]) + Removed(log) == start
    && InOrder(log)
  }

  lemma SwapParts(cs: seq<Channel>, m: nat, i: nat)
    requires 1 <= i < m <= |cs|
    ensures var next := Swapped(cs, i, m - 1);
            && |next| == |cs| && next[0] == cs[0] && multiset(next[1..]) == multiset(cs[1..])
            && multiset(next[1..m - 1]) + multiset{cs[i]} == multiset(cs[1..m])
  {
    var next := Swapped(cs, i, m - 1);
    assert next[1..] == next[1..m - 1] + [cs[i]] + cs[m..];
    assert cs[1..] == cs[1..m] + cs[m..];
    SwapFront(cs, m, i);
  }

  lemma SwapFront(cs: seq<Channel>, m: nat, i: nat)
    requires 1 <= i < m <= |cs|
    ensures multiset(Swapped(cs, i, m - 1)[1..m - 1]) + multiset{cs[i]} == multiset(cs[1..m])
  {
    var x, y := cs[i], cs[m - 1];
    if i == m - 1 {
      SwapLast(cs, m);
    } else {
      hide Swapped;
      var a, b := cs[1..i], cs[i + 1..m - 1];
      SwapSlices(cs, m, i);
      assert cs[1..m] == a + [x] + b + [y];
      Reordered(a, b, x, y);
    }
  }

  lemma SwapLast(cs: seq<Channel>, m: nat)
    requires 1 < m <= |cs|
    ensures multiset(Swapped(cs, m - 1, m - 1)[1..m - 1]) + multiset{cs[m - 1]} == multiset(cs[1..m])
  {
    assert Swapped(cs, m - 1, m - 1) == cs;
    assert cs[1..m] == cs[1..m - 1] + [cs[m - 1]];
  }

  lemma SwapSlices(cs: seq<Channel>, m: nat, i: nat)
    requires 1 <= i < m - 1 < |cs|
    ensures Swapped(cs, i, m - 1)[1..m - 1] == cs[1..i] + [cs[m - 1]] + cs[i + 1..m - 1]
  {
  }

  lemma Reordered(a: seq<Channel>, b: seq<Channel>, x: Channel, y: Channel)
    ensures multiset(a + [y] + b) + multiset{x} == multiset(a + [x] + b + [y])
  {
  }

  lemma CutParts(cs: seq<Channel>, m: nat, i: nat)
    requires 1 <= i < |cs| && 1 <= m <= |cs|
    ensures var next := Without(cs, i);
            && |next| == |cs| - 1 && multiset(next[1..]) + multiset{cs[i]} == multiset(cs[1..]) && next[0] == cs[0]
            && (i < m ==> multiset(next[1..m - 1]) + multiset{cs[i]} == multiset(cs[1..m]))
            && (i >= m ==> next[1..m] == cs[1..m])
  {
    var next := Without(cs, i);
    CutUpTo(cs, |cs|, i);
    assert next[1..|cs| - 1] == next[1..] && cs[1..|cs|] == cs[1..];
    if i < m { CutUpTo(cs, m, i); }
  }

  lemma CutUpTo(cs: seq<Channel>, m: nat, i: nat)
    requires 1 <= i < m <= |cs|
    ensures |Without(cs, i)| == |cs| - 1 && multiset(Without(cs, i)[1..m - 1]) + multiset{cs[i]} == multiset(cs[1..m])
  {
    var a, b := cs[1..i], cs[i + 1..m];
    assert cs[1..m] == a + [cs[i]] + b;
    assert Without(cs, i)[1..m - 1] == a + b;
    TakenOut(a, cs[i], b);
  }

  lemma TakenOut(a: seq<Channel>, x: Channel, b: seq<Channel>)
    ensures multiset(a + b) + multiset{x} == multiset(a + [x] + b)
  {
  }

  lemma SameMembers(s: seq<Channel>, t: multiset<Channel>)
    requires multiset(s) <= t && 0 !in t
    ensures 0 !in s
  {
    assert 0 in s ==> 0 in multiset(s);
  }

  lemma CutCases(cs: seq<Channel>, next: seq<Channel>, i: nat)
    requires 1 <= i < |cs| && next == Without(cs, i) && 0 !in cs[1..]
    ensures 0 !in next[1..]
  {
    CutParts(cs, |cs|, i);
    assert 0 !in multiset(cs[1..]);
    SameMembers(next[1..], multiset(cs[1..]));
  }

  /** Serving a waiting case moves it behind the waiting ones. */
  lemma ServeStep(cs: seq<Channel>, m: nat, start: multiset<Channel>, log: seq<Event>, i: nat)
    requires Tracking(cs, m, start, log) && 1 <= i < m
    ensures Tracking(Swapped(cs, i, m - 1), m - 1, start, log + [Deliver(cs[i])])
  {
    hide Delivered, Removed, Missed, Swapped, InOrder;
    SwapParts(cs, m, i);
    LogGrows(log, Deliver(cs[i]));
    assert 0 !in multiset(cs[1..]);
    SameMembers(Swapped(cs, i, m - 1)[1..], multiset(cs[1..]));
    WaitingAreHeld(Swapped(cs, i, m - 1), m - 1, start, log + [Deliver(cs[i])]);
    OrderGrows(log, Deliver(cs[i]));
  }

  /** Removing any case keeps the waiting ones in front. */
  lemma RemoveStep(cs: seq<Channel>, m: nat, start: multiset<Channel>, log: seq<Event>, i: nat)
    requires Tracking(cs, m, start, log) && 1 <= i < |cs|
    ensures Tracking(Without(cs, i), if i < m then m - 1 else m, start, log + [Remove(cs[i], i < m)])
  {
    hide Delivered, Removed, Missed, Without, InOrder;
    CutParts(cs, m, i);
    LogGrows(log, Remove(cs[i], i < m));
    assert 0 !in multiset(cs[1..]);
    SameMembers(Without(cs, i)[1..], multiset(cs[1..]));
    WaitingAreHeld(Without(cs, i), if i < m then m - 1 else m, start, log + [Remove(cs[i], i < m)]);
    OrderGrows(log, Remove(cs[i], i < m));
  }

  /** What a Send promises: every subscription of its start is delivered to exactly once or was removed while waiting,
      never after its removal, and those kept are the ones not removed. */
  ghost predicate Sent(start: multiset<Channel>, log: seq<Event>, kept: multiset<Channel>) {
    Delivered(log) + Missed(log) == start && kept + Removed(log) == start && InOrder(log)
  }

  /** The log up to and including event `i`, by what that event is. */
  lemma UpTo(log: seq<Event>, i: nat)
    requires i < |log|
    ensures Delivered(log[..i + 1])
            == Delivered(log[..i]) + if log[i].Deliver? then multiset{log[i].channel} else multiset{}
    ensures Removed(log[..i + 1])
            == Removed(log[..i]) + if log[i].Remove? then multiset{log[i].channel} else multiset{}
    ensures Missed(log[..i + 1])
            == Missed(log[..i]) + if log[i].Remove? && log[i].waiting then multiset{log[i].channel} else multiset{}
  {
    assert log[..i + 1] == log[..i] + [log[i]];
    LogGrows(log[..i], log[i]);
  }

  lemma {:induction false} Grows(log: seq<Event>, i: nat, j: nat)
    requires i <= j <= |log|
    ensures Delivered(log[..i]) <= Delivered(log[..j]) && Removed(log[..i]) <= Removed(log[..j])
    ensures Missed(log[..i]) <= Missed(log[..j])
    decreases j - i
  {
    hide Delivered, Removed, Missed;
    if i < j {
      Grows(log, i, j - 1);
      UpTo(log, j - 1);
    }
  }

  /** Whatever the log counts it holds. */
  lemma {:induction false} Held(log: seq<Event>, c: Channel)
    ensures c in Delivered(log) <==> Deliver(c) in log
    ensures c in Removed(log) <==> Remove(c, true) in log || Remove(c, false) in log
    ensures c in Missed(log) <==> Remove(c, true) in log
    decreases |log|
  {
    if log != [] {
      var n := |log| - 1;
      Held(log[..n], c);
      assert log == log[..n] + [log[n]];
      HeldMore(log[..n], log[n], c);
    }
  }

  lemma HeldMore(log: seq<Event>, e: Event, c: Channel)
    requires c in Delivered(log) <==> Deliver(c) in log
    requires c in Removed(log) <==> Remove(c, true) in log || Remove(c, false) in log
    requires c in Missed(log) <==> Remove(c, true) in log
    ensures c in Delivered(log + [e]) <==> Deliver(c) in log + [e]
    ensures c in Removed(log + [e]) <==> Remove(c, true) in log + [e] || Remove(c, false) in log + [e]
    ensures c in Missed(log + [e]) <==> Remove(c, true) in log + [e]
  {
    hide Delivered, Removed, Missed;
    LogGrows(log, e);
    assert forall x :: x in log + [e] <==> x in log || x == e;
  }

  /** For a channel subscribed once, by position in the log: it is delivered to at most once, and never after its
      removal; it gets no delivery exactly when it was removed without one before; and it is kept exactly when it was
      not removed. */
  lemma SentOnce(start: multiset<Channel>, log: seq<Event>, kept: multiset<Channel>, c: Channel)
    requires Sent(start, log, kept) && start[c] == 1
    ensures forall i, j | 0 <= i < j < |log| && log[i] == Deliver(c) :: log[j] != Deliver(c)
    ensures forall i, j | 0 <= i < j < |log| && log[i].Remove? && log[i].channel == c :: log[j] != Deliver(c)
    ensures forall i | 0 <= i < |log| && log[i].Remove? && log[i].channel == c ::
              log[i].waiting <==> Deliver(c) !in log[..i]
    ensures Deliver(c) !in log <==>
              exists i | 0 <= i < |log| && log[i].Remove? && log[i].channel == c :: Deliver(c) !in log[..i]
    ensures c in kept <==> forall i | 0 <= i < |log| && log[i].Remove? :: log[i].channel != c
  {
    hide Delivered, Removed, Missed, InOrder;
    forall i, j | 0 <= i < j < |log| && log[i].channel == c
      ensures log[j] != Deliver(c)
    {
      NoneAfter(start, log, kept, c, i, j);
    }
    forall i | 0 <= i < |log| && log[i].Remove? && log[i].channel == c
      ensures log[i].waiting <==> Deliver(c) !in log[..i]
    {
      RemovedInTime(start, log, kept, c, i);
    }
    Held(log, c);
    assert (Delivered(log) + Missed(log))[c] == 1 && (kept + Removed(log))[c] == 1;
    if Deliver(c) !in log {
      var i :| 0 <= i < |log| && log[i] == Remove(c, true);
      assert Deliver(c) !in log[..i];
    }
  }

  /** No delivery follows another event of a channel subscribed once. */
  lemma NoneAfter(start: multiset<Channel>, log: seq<Event>, kept: multiset<Channel>, c: Channel, i: nat, j: nat)
    requires Sent(start, log, kept) && start[c] == 1 && i < j < |log| && log[i].channel == c
    ensures log[j] != Deliver(c)
  {
    hide Delivered, Removed, Missed;
    UpTo(log, i);
    assert Removed(log[..i + 1]) <= Delivered(log[..i + 1]) + Missed(log[..i + 1]);
    assert (Delivered(log[..i + 1]) + Missed(log[..i + 1]))[c] >= 1;
    Grows(log, i + 1, j);
    assert (Delivered(log[..j]) + Missed(log[..j]))[c] >= 1;
    Grows(log, j + 1, |log|);
    assert log[..|log|] == log;
    assert (Delivered(log[..j + 1]) + Missed(log[..j + 1]))[c] <= (Delivered(log) + Missed(log))[c] == 1;
    UpTo(log, j);
  }

  /** The removal of a channel subscribed once finds it waiting exactly when nothing was delivered to it before. */
  lemma RemovedInTime(start: multiset<Channel>, log: seq<Event>, kept: multiset<Channel>, c: Channel, i: nat)
    requires Sent(start, log, kept) && start[c] == 1 && i < |log| && log[i].Remove? && log[i].channel == c
    ensures log[i].waiting <==> Deliver(c) !in log[..i]
  {
    hide Delivered, Removed, Missed;
    UpTo(log, i);
    Grows(log, i + 1, |log|);
    assert log[..|log|] == log;
    Held(log[..i], c);
    assert Removed(log[..i + 1]) <= Delivered(log[..i + 1]) + Missed(log[..i + 1]);
    assert (Delivered(log) + Missed(log))[c] == 1 && (kept + Removed(log))[c] == 1;
    MissedWereRemoved(log[..i]);
  }

  class Feed {
    var store: array<Channel>
    var n: nat
    var inbox: seq<Channel>

    ghost predicate Valid()
      reads this, store
    {
      FIRST_SUB_SEND_CASE <= n <= store.Length && store[0] == 0 && 0 !in store[1..n] && 0 !in inbox
    }

    /** The subscriptions a Send has merged. */
    ghost function Cases(): multiset<Channel>
      requires FIRST_SUB_SEND_CASE <= n <= store.Length
      reads this, store
    {
      multiset(store[1..n])
    }

    constructor ()
      ensures Valid() && fresh(store) && Cases() == multiset{} && inbox == []
    {
      store := new Channel[1](_ => 0);
      n := 1;
      inbox := [];
    }

    method Subscribe(channel: Channel)
      requires Valid() && channel != 0
      modifies `inbox
      ensures Valid() && inbox == old(inbox) + [channel]
    {
      inbox := inbox + [channel];
    }

    /** The first index of a channel among the first `n` cases. */
    method Find(channel: Channel) returns (index: int)
      requires n <= store.Length
      ensures index == -1 <==> channel !in store[..n]
      ensures index != -1 ==> 0 <= index < n && store[index] == channel && channel !in store[..index]
    {
      for i := 0 to n
        invariant channel !in store[..i]
      {
        if store[i] == channel {
          return i;
        }
      }
      return -1;
    }

    /** Shifts the cases above `index` down by one, in place. */
    method Delete(index: nat)
      requires index < n <= store.Length
      modifies store, `n
      ensures n == old(n) - 1 && store[..n] == Without(old(store[..n]), index)
    {
      var i := index;
      while i + 1 < n
        invariant index <= i < n == old(n)
        invariant forall k | 0 <= k < i :: store[k] == old(store[..n])[if k < index then k else k + 1]
        invariant forall k | i < k < n :: store[k] == old(store[..n])[k]
        modifies store
      {
        store[i] := store[i + 1];
        i := i + 1;
      }
      n := n - 1;
    }

    /** Moves a case to the end of the first `m`, in place. */
    method Deactivate(index: nat, m: nat)
      requires index < m <= n <= store.Length
      modifies store
      ensures store[..n] == Swapped(old(store[..n]), index, m - 1)
    {
      store[index], store[m - 1] := store[m - 1], store[index];
    }

    /** Unsubscribes a channel while no Send is in progress: one entry of it goes, from the inbox if it is there. */
    method Unsubscribe(channel: Channel)
      requires Valid() && (channel in inbox || channel in store[1..n])
      modifies this, store
      ensures Valid() && store == old(store)
      ensures channel in old(inbox) ==>
                store[..n] == old(store[..n]) && multiset(inbox) == old(multiset(inbox)) - multiset{channel}
      ensures channel !in old(inbox) ==> inbox == old(inbox) && Cases() == old(Cases()) - multiset{channel}
    {
      var index := IndexOf(inbox, channel);
      if index != -1 {
        assert inbox == inbox[..index] + [inbox[index]] + inbox[index + 1..];
        inbox := inbox[..index] + inbox[index + 1..];
        return;
      }
      var at := DropCase(channel);
      CutParts(old(store[..n]), old(n), at);
      CutCases(old(store[..n]), store[..n], at);
      assert store[..n][1..] == store[1..n] && old(store[..n][1..]) == old(store[1..n]);
    }

    /** Deletes the first case of a channel. */
    method DropCase(channel: Channel) returns (index: nat)
      requires Valid() && channel in store[1..n]
      modifies store, `n
      ensures 1 <= index < old(n) && old(store[index]) == channel
      ensures n == old(n) - 1 && store[..n] == Without(old(store[..n]), index)
    {
      assert store[..n] == [0] + store[1..n];
      var at := Find(channel);
      Delete(at);
      index := at;
    }

    /** Moves the inbox behind the cases; a fresh array is taken when the storage is too small. */
    method Merge()
      requires Valid()
      modifies this, store
      ensures Valid() && inbox == [] && (store == old(store) || fresh(store))
      ensures store[..n] == old(store[..n]) + old(inbox)
    {
      ghost var before := store[..n];
      if n + |inbox| > store.Length {
        Grow(2 * (n + |inbox|));
      }
      var i := 0;
      while i < |inbox|
        invariant 0 <= i <= |inbox| && store[..n + i] == before + inbox[..i]
        modifies store
      {
        store[n + i] := inbox[i];
        i := i + 1;
      }
      n := n + |inbox|;
      assert inbox[..|inbox|] == inbox;
      assert before[1..] == old(store[1..n]);
      assert store[..n] == before + inbox && store[1..n] == (before + inbox)[1..] == before[1..] + inbox;
      inbox := [];
    }

    /** Moves the cases to a larger array. */
    method Grow(capacity: nat)
      requires n <= store.Length && n <= capacity
      modifies `store
      ensures fresh(store) && store.Length == capacity && store[..n] == old(store[..n])
    {
      var bigger := new Channel[capacity](_ => 0);
      for i := 0 to n
        invariant bigger[..i] == store[..i]
        modifies bigger
      {
        bigger[i] := store[i];
      }
      store := bigger;
    }

    /** Whatever other goroutines do to the inbox meanwhile. */
    method Others()
      requires Valid()
      modifies `inbox
      ensures Valid()
    {
      var next: seq<Channel> :| 0 !in next;
      inbox := next;
    }

    /** Sends a value to all subscriptions. Which channels are ready, which are removed meanwhile and what is subscribed
        meanwhile is left open at every point. */
    method Send() returns (nsent: nat, log: seq<Event>)
      requires Valid()
      modifies this, store
      ensures Valid() && (store == old(store) || fresh(store))
      ensures Sent(old(Cases()) + multiset(old(inbox)), log, Cases())
      ensures nsent == |Delivered(log)|
    {
      hide Tracking, Delivered;
      Merge();
      ghost var start := Cases();
      Starting(store[..n], old(store[..n]), old(inbox));
      assert store[..n][1..] == store[1..n] && old(store[..n][1..]) == old(store[1..n]);
      nsent, log := 0, [];
      var m: nat := n;
      while m != FIRST_SUB_SEND_CASE
        invariant Valid() && (store == old(store) || fresh(store))
        invariant Tracking(store[..n], m, start, log) && 1 <= m <= n && nsent == |Delivered(log)|
        decreases n + m
      {
        nsent, log, m := FastPath(start, nsent, log, m);
        if m != FIRST_SUB_SEND_CASE {
          Others();
          nsent, log, m := Select(start, nsent, log, m);
        }
      }
      assert store[..n][1..] == store[1..n];
      AllServed(store[..n], start, log);
    }

    /** Tries every case once without blocking. */
    method FastPath(ghost start: multiset<Channel>, nsent0: nat, log0: seq<Event>, m0: nat)
      returns (nsent: nat, log: seq<Event>, m: nat)
      requires Valid() && 1 <= m0 <= n && Tracking(store[..n], m0, start, log0) && nsent0 == |Delivered(log0)|
      modifies store
      ensures Valid() && 1 <= m <= m0 && Tracking(store[..n], m, start, log) && nsent == |Delivered(log)|
    {
      hide Tracking, Delivered;
      nsent, log, m := nsent0, log0, m0;
      var i := FIRST_SUB_SEND_CASE;
      while i < m
        invariant Valid() && 1 <= i && 1 <= m <= m0 && Tracking(store[..n], m, start, log) && nsent == |Delivered(log)|
        decreases m - i
      {
        if * {
          nsent, log, m := Serve(start, nsent, log, m, i);
        } else {
          i := i + 1;
        }
      }
    }

    method Serve(ghost start: multiset<Channel>, nsent0: nat, log0: seq<Event>, m0: nat, i: nat)
      returns (nsent: nat, log: seq<Event>, m: nat)
      requires Valid() && 1 <= i < m0 <= n && Tracking(store[..n], m0, start, log0) && nsent0 == |Delivered(log0)|
      modifies store
      ensures Valid() && m == m0 - 1 && Tracking(store[..n], m, start, log) && nsent == |Delivered(log)|
      ensures log == log0 + [Deliver(old(store[i]))]
    {
      hide Tracking, Delivered;
      ServeStep(store[..n], m0, start, log0, i);
      LogGrows(log0, Deliver(store[i]));
      nsent, log, m := nsent0 + 1, log0 + [Deliver(store[i])], m0 - 1;
      Deactivate(i, m0);
      StillValid(store[..n], m, start, log);
      assert store[..n][1..] == store[1..n];
    }

    /** Blocks until a channel takes the value or one is removed. */
    method Select(ghost start: multiset<Channel>, nsent0: nat, log0: seq<Event>, m0: nat)
      returns (nsent: nat, log: seq<Event>, m: nat)
      requires Valid() && 1 < m0 <= n && Tracking(store[..n], m0, start, log0) && nsent0 == |Delivered(log0)|
      modifies store, `n
      ensures Valid() && 1 <= m <= n && Tracking(store[..n], m, start, log) && nsent == |Delivered(log)|
      ensures n + m < old(n) + m0
    {
      hide Tracking, Delivered, Removed, Missed, Without;
      var chosen: nat :| chosen < m0;
      if chosen == 0 {
        assert store[1] in store[1..n];
        var channel :| channel in store[1..n];
        var index := DropCase(channel);
        RemoveStep(old(store[..n]), m0, start, log0, index);
        LogGrows(log0, Remove(channel, index < m0));
        nsent, log := nsent0, log0 + [Remove(channel, index < m0)];
        m := m0;
        if 0 <= index < m0 {
          m := m0 - 1;
        }
        StillValid(store[..n], m, start, log);
        assert store[..n][1..] == store[1..n];
      } else {
        nsent, log, m := Serve(start, nsent0, log0, m0, chosen);
      }
    }
  }

  method IndexOf(cs: seq<Channel>, channel: Channel) returns (index: int)
    ensures index == -1 <==> channel !in cs
    ensures index != -1 ==> 0 <= index < |cs| && cs[index] == channel
  {
    for i := 0 to |cs|
      invariant channel !in cs[..i]
    {
      if cs[i] == channel {
        return i;
      }
    }
    return -1;
  }

  lemma StillValid(cs: seq<Channel>, m: nat, start: multiset<Channel>, log: seq<Event>)
    requires Tracking(cs, m, start, log)
    ensures FIRST_SUB_SEND_CASE <= m <= |cs| && cs[0] == 0 && 0 !in cs[1..]
  {
  }

  lemma Starting(cs: seq<Channel>, before: seq<Channel>, inbox: seq<Channel>)
    requires cs == before + inbox && before != [] && before[0] == 0 && 0 !in before[1..] && 0 !in inbox
    ensures multiset(cs[1..]) == multiset(before[1..]) + multiset(inbox)
    ensures Tracking(cs, |cs|, multiset(cs[1..]), []) && Delivered([]) == multiset{}
  {
    assert cs[1..] == before[1..] + inbox;
    assert cs[1..|cs|] == cs[1..];
    assert forall k | 0 <= k <= 0 :: Removed([][..k]) == multiset{};
  }

  lemma AllServed(cs: seq<Channel>, start: multiset<Channel>, log: seq<Event>)
    requires Tracking(cs, FIRST_SUB_SEND_CASE, start, log)
    ensures Sent(start, log, multiset(cs[1..]))
  {
    assert cs[1..1] == [];
    hide InOrder;
  }
}
