/** Counting listed transactions, and the invariants of the fair truncation of the pending lists. */
module PoolTruncation {
  import opened Types
  import opened NonceMap
  import opened PoolInvariant

  function Len(m: Lists, a: Address): nat {
    |ItemsAt(m, a)|
  }

  /** The number of listed transactions. */
  ghost function Total(m: Lists): nat {
    if m == map[] then 0
    else
      var a :| a in m;
      |m[a].items| + Total(m - {a})
  }

  lemma TotalUnfolds(m: Lists) returns (b: Address)
    requires m != map[]
    ensures b in m && Total(m) == |m[b].items| + Total(m - {b})
  {
    b :| b in m && Total(m) == |m[b].items| + Total(m - {b});
  }

  lemma {:induction false} TotalPick(m: Lists, a: Address)
    requires a in m
    ensures Total(m) == |m[a].items| + Total(m - {a})
    decreases |m|
  {
    hide Total;
    var b := TotalUnfolds(m);
    if b != a {
      TotalPick(m - {b}, a);
      TotalPick(m - {a}, b);
      assert m - {b} - {a} == m - {a} - {b};
    }
  }

  lemma TotalWithout(m: Lists, a: Address)
    ensures Total(m) == Len(m, a) + Total(m - {a})
  {
    if a in m {
      TotalPick(m, a);
    } else {
      assert m - {a} == m;
    }
  }

  lemma TotalSameBut(m: Lists, m': Lists, a: Address)
    requires SameBut(m, m', a)
    ensures Total(m') + Len(m, a) == Total(m) + Len(m', a)
  {
    TotalWithout(m, a);
    TotalWithout(m', a);
  }

  method Count(m: Lists) returns (n: nat)
    ensures n == Total(m)
  {
    n := 0;
    var rest := m;
    while rest != map[]
      invariant n + Total(rest) == Total(m)
      decreases |rest|
    {
      var a :| a in rest;
      TotalWithout(rest, a);
      n := n + |rest[a].items|;
      rest := rest - {a};
    }
  }

  /** Truncating twice is truncating to the smaller size. */
  lemma LowestOfLowest(m: Items, j: nat, k: nat)
    requires k <= j <= |m|
    ensures LowestPart(LowestPart(m, j), k) == LowestPart(m, k) && |LowestPart(m, j)| == j
  {
    var low := LowestPart(m, j);
    LowestIsLowerPart(m.Keys, j);
    assert low.Keys == Lowest(m.Keys, j);
    LowestIsLowerPart(low.Keys, k);
    var r := Lowest(low.Keys, k);
    assert LowerPart(m.Keys, r);
    LowestUnique(m.Keys, r);
  }

  /** Every list of `p` is what is left of the list of `p0` after dropping its highest nonces. */
  ghost predicate Trimmed(p0: Lists, p: Lists) {
    && p.Keys == p0.Keys
    && forall a | a in p0 :: Len(p, a) <= Len(p0, a) && ItemsAt(p, a) == LowestPart(ItemsAt(p0, a), Len(p, a))
  }

  ghost predicate Distinct(s: seq<Address>) {
    forall i, j | 0 <= i < j < |s| :: s[i] != s[j]
  }

  /** One round of cuts took one transaction off each of `addrs` and left the other accounts alone. */
  ghost predicate RoundCut(p: Lists, p': Lists, addrs: seq<Address>) {
    && p'.Keys == p.Keys
    && forall a | a in p ::
         if a in addrs then Len(p, a) >= 1 && ItemsAt(p', a) == LowestPart(ItemsAt(p, a), Len(p, a) - 1)
                            else p'[a] == p[a]
  }

  /** The remote accounts above their guarantee are the offenders taken so far and the spammers still waiting. */
  ghost predicate Sorted(p0: Lists, locals: set<Address>, slots: nat, offenders: seq<Address>,
                         spam: map<Address, nat>) {
    && Distinct(offenders)
    && (forall a | a in offenders :: a !in spam)
    && (forall a | a in spam :: spam[a] == Len(p0, a))
    && (forall a :: a in offenders || a in spam <==> a in p0 && a !in locals && Len(p0, a) > slots)
  }

  /** The state of the truncation: the first `k` offenders are level at `e`, at most one more waits uncut below
      them, nobody else has been touched, and the limit is undershot by less than one round. */
  ghost predicate Cutting(p0: Lists, p: Lists, locals: set<Address>, slots: nat, limit: nat, total: nat,
                          offenders: seq<Address>, spam: map<Address, nat>, k: nat, e: nat) {
    && Trimmed(p0, p) && Sorted(p0, locals, slots, offenders, spam)
    && |offenders| - 1 <= k <= |offenders|
    && (forall i | 0 <= i < k :: Len(p, offenders[i]) == e <= Len(p0, offenders[i]))
    && (forall a | a in p0 && a !in offenders[..k] :: p[a] == p0[a])
    && (k > 0 ==> e >= slots && (forall a | a in spam :: spam[a] <= e))
    && (k < |offenders| ==>
          && (k > 0 ==> Len(p0, offenders[k]) <= e)
          && (forall a | a in spam :: spam[a] <= Len(p0, offenders[k])))
    && (total <= limit ==> total + k > limit && forall i | 0 <= i < k :: e < Len(p0, offenders[i]))
  }

  lemma StartCutting(p0: Lists, locals: set<Address>, slots: nat, limit: nat, total: nat, spam: map<Address, nat>)
    requires total > limit && Sorted(p0, locals, slots, [], spam)
    ensures Cutting(p0, p0, locals, slots, limit, total, [], spam, 0, 0)
  {
    forall a | a in p0
      ensures ItemsAt(p0, a) == LowestPart(ItemsAt(p0, a), Len(p0, a))
    {
      WholeIsLowest(ItemsAt(p0, a));
    }
  }

  lemma SameLen(p0: Lists, p: Lists, a: Address)
    requires a in p0 && a in p && p[a] == p0[a]
    ensures Len(p, a) == Len(p0, a)
  {
  }

  lemma TrimmedKeys(p0: Lists, p: Lists)
    requires Trimmed(p0, p)
    ensures p.Keys == p0.Keys
  {
  }

  /** Taking the largest spammer as the next offender. */
  lemma TakeOffender(p0: Lists, p: Lists, locals: set<Address>, slots: nat, limit: nat, total: nat,
                     offenders: seq<Address>, spam: map<Address, nat>, e: nat, x: Address)
    requires Cutting(p0, p, locals, slots, limit, total, offenders, spam, |offenders|, e) && total > limit
    requires x in spam && forall b | b in spam :: spam[b] <= spam[x]
    ensures Cutting(p0, p, locals, slots, limit, total, offenders + [x], spam - {x}, |offenders|, e)
    ensures Len(p, x) == Len(p0, x) > slots && x in p
  {
    hide Trimmed, Len;
    TrimmedKeys(p0, p);
    assert (offenders + [x])[..|offenders|] == offenders[..|offenders|];
    var o' := offenders + [x];
    assert x in p0 && x !in offenders;
    SameLen(p0, p, x);
    forall a
      ensures a in o' || a in spam - {x} <==> a in p0 && a !in locals && Len(p0, a) > slots
    {
      assert a in o' <==> a in offenders || a == x;
      assert a in offenders || a in spam <==> a in p0 && a !in locals && Len(p0, a) > slots;
    }
  }

  /** Once the earlier offenders are down to the newest one, all are level. */
  lemma LevelWithNewest(p0: Lists, p: Lists, locals: set<Address>, slots: nat, limit: nat, total: nat,
                        offenders: seq<Address>, spam: map<Address, nat>, k: nat, e: nat)
    requires Cutting(p0, p, locals, slots, limit, total, offenders, spam, k, e) && total > limit
    requires k + 1 == |offenders| && (k > 0 ==> e <= Len(p0, offenders[k]))
    ensures Cutting(p0, p, locals, slots, limit, total, offenders, spam, k + 1, Len(p0, offenders[k]))
  {
    hide Trimmed, Len;
    var last := offenders[k];
    OffenderListed(p0, p, locals, slots, offenders, spam, k);
    assert last in offenders && last !in offenders[..k];
    SameLen(p0, p, last);
    assert forall a | a !in offenders[..k + 1] :: a !in offenders[..k];
  }

  /** A round of cuts keeps the offenders level, one lower. */
  lemma RoundKeepsLevel(p0: Lists, p: Lists, p': Lists, locals: set<Address>, slots: nat, limit: nat, total: nat,
                        offenders: seq<Address>, spam: map<Address, nat>, k: nat, e: nat)
    requires Cutting(p0, p, locals, slots, limit, total, offenders, spam, k, e) && total > limit && total >= k > 0
    requires RoundCut(p, p', offenders[..k])
    requires e > slots && (if k < |offenders| then e > Len(p0, offenders[k]) else spam == map[])
    ensures Cutting(p0, p', locals, slots, limit, total - k, offenders, spam, k, e - 1)
  {
    hide LowestPart, Trimmed, Len, ItemsAt, RoundCut, Sorted;
    RoundTrims(p0, p, p', offenders[..k]);
    SameKeys(p0, p, p', offenders[..k]);
    forall i | 0 <= i < k
      ensures Len(p', offenders[i]) == e - 1
    {
      assert offenders[..k][i] == offenders[i];
      OffenderListed(p0, p, locals, slots, offenders, spam, i);
      RoundLowers(p, p', offenders[..k], offenders[i]);
    }
    forall a | a in p0 && a !in offenders[..k]
      ensures p'[a] == p0[a]
    {
      Unlowered(p, p', offenders[..k], a);
    }
  }

  lemma SameKeys(p0: Lists, p: Lists, p': Lists, addrs: seq<Address>)
    requires Trimmed(p0, p) && RoundCut(p, p', addrs)
    ensures p.Keys == p0.Keys && p'.Keys == p0.Keys
  {
  }

  lemma Unlowered(p: Lists, p': Lists, addrs: seq<Address>, a: Address)
    requires RoundCut(p, p', addrs) && a in p && a !in addrs
    ensures a in p' && p'[a] == p[a]
  {
  }

  lemma RoundLowers(p: Lists, p': Lists, addrs: seq<Address>, a: Address)
    requires RoundCut(p, p', addrs) && a in addrs && a in p
    ensures Len(p', a) == Len(p, a) - 1
  {
    hide LowestPart, Total, ItemsAt;
    LowestOfLowest(ItemsAt(p, a), Len(p, a) - 1, Len(p, a) - 1);
  }

  lemma OffenderListed(p0: Lists, p: Lists, locals: set<Address>, slots: nat, offenders: seq<Address>,
                       spam: map<Address, nat>, i: nat)
    requires Trimmed(p0, p) && Sorted(p0, locals, slots, offenders, spam) && i < |offenders|
    ensures offenders[i] in p0 && offenders[i] in p && offenders[i] !in locals
  {
    var a := offenders[i];
    assert a in offenders;
    assert a in offenders || a in spam <==> a in p0 && a !in locals && Len(p0, a) > slots;
  }

  lemma RoundTrims(p0: Lists, p: Lists, p': Lists, addrs: seq<Address>)
    requires Trimmed(p0, p) && RoundCut(p, p', addrs)
    ensures Trimmed(p0, p')
  {
    hide LowestPart;
    forall a | a in p0
      ensures Len(p', a) <= Len(p0, a) && ItemsAt(p', a) == LowestPart(ItemsAt(p0, a), Len(p', a))
    {
      if a in addrs {
        LowestOfLowest(ItemsAt(p0, a), Len(p, a), Len(p, a) - 1);
        LowestOfLowest(ItemsAt(p0, a), Len(p, a) - 1, Len(p, a) - 1);
      }
    }
  }

  // ---------- What truncation promises ----------

  ghost predicate IsCut(p0: Lists, p: Lists, a: Address) {
    a in p0 && Len(p, a) < Len(p0, a)
  }

  ghost function CutAccounts(p0: Lists, p: Lists): set<Address> {
    set a | a in p0 && IsCut(p0, p, a)
  }

  /** Only highest nonces of remote accounts above their guarantee are dropped, down to the guarantee at most; all
      cut accounts end level, no shorter than any uncut remote account; and the limit is met unless every remote
      account is within its guarantee, missing it by less than the number of cut accounts. */
  ghost predicate FairlyTruncated(p0: Lists, p: Lists, locals: set<Address>, slots: nat, limit: nat) {
    && Trimmed(p0, p)
    && (forall a | IsCut(p0, p, a) :: a !in locals && Len(p, a) >= slots)
    && (forall a | a in p0 && !IsCut(p0, p, a) :: ItemsAt(p, a) == ItemsAt(p0, a))
    && (forall a, b | IsCut(p0, p, a) && IsCut(p0, p, b) :: Len(p, a) == Len(p, b))
    && (forall a, b | IsCut(p0, p, a) && b in p0 && b !in locals && !IsCut(p0, p, b) :: Len(p, b) <= Len(p, a))
    && (Total(p) <= limit || forall a | a in p0 && a !in locals :: Len(p, a) <= slots)
    && (Total(p0) > limit ==> Total(p) + |CutAccounts(p0, p)| > limit)
    && (Total(p0) <= limit ==> p == p0)
  }

  lemma {:induction false} DistinctCount(s: seq<Address>, t: set<Address>)
    requires Distinct(s) && forall i | 0 <= i < |s| :: s[i] in t
    ensures |s| <= |t|
    decreases |s|
  {
    if |s| > 0 {
      var n := |s| - 1;
      DistinctCount(s[..n], t - {s[n]});
    }
  }

  lemma CutIsOffender(p0: Lists, p: Lists, locals: set<Address>, slots: nat, limit: nat, total: nat,
                      offenders: seq<Address>, spam: map<Address, nat>, k: nat, e: nat, a: Address)
    requires Cutting(p0, p, locals, slots, limit, total, offenders, spam, k, e) && IsCut(p0, p, a)
    ensures k > 0 && Len(p, a) == e && a !in locals
  {
    assert a in offenders[..k];
    var i :| 0 <= i < k && offenders[..k][i] == a;
    assert offenders[i] == a && a in offenders;
    assert a in offenders || a in spam <==> a in p0 && a !in locals && Len(p0, a) > slots;
  }

  lemma UncutIsBelow(p0: Lists, p: Lists, locals: set<Address>, slots: nat, limit: nat, total: nat,
                     offenders: seq<Address>, spam: map<Address, nat>, k: nat, e: nat, b: Address)
    requires Cutting(p0, p, locals, slots, limit, total, offenders, spam, k, e) && k > 0
    requires b in p0 && b !in locals && !IsCut(p0, p, b)
    ensures Len(p, b) <= e
  {
    assert b in offenders || b in spam <==> b in p0 && b !in locals && Len(p0, b) > slots;
    if b in offenders {
      var i :| 0 <= i < |offenders| && offenders[i] == b;
      if i == k { assert Len(p, b) <= Len(p0, b); }
    } else {
      assert b !in offenders[..k];
    }
  }

  /** Nobody remote is left above the guarantee. */
  lemma AllWithinGuarantee(p0: Lists, p: Lists, locals: set<Address>, slots: nat, limit: nat, total: nat,
                           offenders: seq<Address>, k: nat, e: nat, a: Address)
    requires Cutting(p0, p, locals, slots, limit, total, offenders, map[], k, e) && k == |offenders|
    requires k > 0 ==> e <= slots
    requires a in p0 && a !in locals
    ensures Len(p, a) <= slots
  {
    assert a in offenders <==> a in p0 && a !in locals && Len(p0, a) > slots;
    if a in offenders {
      var i :| 0 <= i < |offenders| && offenders[i] == a;
    } else {
      assert a !in offenders[..k];
    }
  }

  lemma CutEnough(p0: Lists, p: Lists, locals: set<Address>, slots: nat, limit: nat, total: nat,
                  offenders: seq<Address>, spam: map<Address, nat>, k: nat, e: nat)
    requires Cutting(p0, p, locals, slots, limit, total, offenders, spam, k, e) && total <= limit
    ensures total + |CutAccounts(p0, p)| > limit
  {
    forall i | 0 <= i < k
      ensures offenders[..k][i] in CutAccounts(p0, p)
    {
      var a := offenders[i];
      assert a in offenders;
      assert a in offenders || a in spam <==> a in p0 && a !in locals && Len(p0, a) > slots;
      assert IsCut(p0, p, a);
    }
    DistinctCount(offenders[..k], CutAccounts(p0, p));
  }

  lemma UncutIsSame(p0: Lists, p: Lists, a: Address)
    requires Trimmed(p0, p) && a in p0 && !IsCut(p0, p, a)
    ensures ItemsAt(p, a) == ItemsAt(p0, a)
  {
    WholeIsLowest(ItemsAt(p0, a));
  }

  lemma WholeIsLowest(m: Items)
    ensures LowestPart(m, |m|) == m
  {
    LowestIsLowerPart(m.Keys, |m|);
    if Lowest(m.Keys, |m|) != m.Keys { StrictSubset(Lowest(m.Keys, |m|), m.Keys); }
  }

  lemma CutsAreLevel(p0: Lists, p: Lists, locals: set<Address>, slots: nat, limit: nat, total: nat,
                     offenders: seq<Address>, spam: map<Address, nat>, k: nat, e: nat)
    requires Cutting(p0, p, locals, slots, limit, total, offenders, spam, k, e)
    ensures Trimmed(p0, p)
    ensures forall a | IsCut(p0, p, a) :: Len(p, a) == e >= slots && a !in locals
    ensures forall a | a in p0 && !IsCut(p0, p, a) :: ItemsAt(p, a) == ItemsAt(p0, a)
    ensures forall a, b | IsCut(p0, p, a) && b in p0 && b !in locals && !IsCut(p0, p, b) :: Len(p, b) <= e
  {
    assert Trimmed(p0, p) && (k > 0 ==> e >= slots);
    hide Cutting, Trimmed, Len, ItemsAt;
    forall a | IsCut(p0, p, a)
      ensures Len(p, a) == e && k > 0 && a !in locals
    {
      CutIsOffender(p0, p, locals, slots, limit, total, offenders, spam, k, e, a);
    }
    forall a | a in p0 && !IsCut(p0, p, a)
      ensures ItemsAt(p, a) == ItemsAt(p0, a)
    {
      UncutIsSame(p0, p, a);
    }
    forall b | b in p0 && b !in locals && !IsCut(p0, p, b) && k > 0
      ensures Len(p, b) <= e
    {
      UncutIsBelow(p0, p, locals, slots, limit, total, offenders, spam, k, e, b);
    }
  }

  /** Stopping within the limit, or with everyone down to the guarantee, is fair. */
  lemma CuttingIsFair(p0: Lists, p: Lists, locals: set<Address>, slots: nat, limit: nat, offenders: seq<Address>,
                      spam: map<Address, nat>, k: nat, e: nat)
    requires Cutting(p0, p, locals, slots, limit, Total(p), offenders, spam, k, e) && Total(p0) > limit
    requires Total(p) > limit ==> k == |offenders| && spam == map[] && (k > 0 ==> e <= slots)
    ensures FairlyTruncated(p0, p, locals, slots, limit)
  {
    var total := Total(p);
    hide Cutting, Trimmed, Len, ItemsAt, Total;
    CutsAreLevel(p0, p, locals, slots, limit, total, offenders, spam, k, e);
    if total > limit {
      forall a | a in p0 && a !in locals
        ensures Len(p, a) <= slots
      {
        AllWithinGuarantee(p0, p, locals, slots, limit, total, offenders, k, e, a);
      }
    } else {
      CutEnough(p0, p, locals, slots, limit, total, offenders, spam, k, e);
    }
  }

  /** A pool within its limit is left as it is. */
  lemma NothingToTruncate(p: Lists, locals: set<Address>, slots: nat, limit: nat)
    requires Total(p) <= limit
    ensures FairlyTruncated(p, p, locals, slots, limit)
  {
    forall a | a in p
      ensures ItemsAt(p, a) == LowestPart(ItemsAt(p, a), Len(p, a))
    {
      WholeIsLowest(ItemsAt(p, a));
    }
  }

  /** `n'` is the lowest of `n` and the nonces of `m`. */
  ghost predicate LoweredTo(n: nat, m: Items, n': nat) {
    n' <= n && (n' == n || n' in m) && forall k | k in m :: n' <= k
  }

  lemma RoundCutNone(p: Lists)
    ensures RoundCut(p, p, [])
  {
  }

  /** Cutting one more account extends the round. */
  lemma RoundCutMore(p: Lists, p': Lists, p'': Lists, addrs: seq<Address>, i: nat)
    requires Distinct(addrs) && i < |addrs| && RoundCut(p, p', addrs[..i])
    requires addrs[i] in p && Len(p, addrs[i]) >= 1
    requires SameBut(p', p'', addrs[i]) && addrs[i] in p''
    requires ItemsAt(p'', addrs[i]) == LowestPart(ItemsAt(p', addrs[i]), Len(p', addrs[i]) - 1)
    ensures RoundCut(p, p'', addrs[..i + 1])
    ensures Total(p'') == Total(p') - 1
    ensures forall j | i < j < |addrs| && addrs[j] in p' :: addrs[j] in p'' && Len(p'', addrs[j]) == Len(p', addrs[j])
  {
    hide LowestPart, SameBut, Total;
    var x := addrs[i];
    assert x !in addrs[..i];
    Unlowered(p, p', addrs[..i], x);
    OneLess(p', p'', x);
    forall j | i < j < |addrs| && addrs[j] in p'
      ensures addrs[j] in p'' && Len(p'', addrs[j]) == Len(p', addrs[j])
    {
      SameElsewhere(p', p'', x, addrs[j]);
    }
    forall b
      ensures b in p'' <==> b in p
    {
      if b != x { SameElsewhere(p', p'', x, b); }
    }
    forall a | a in p
      ensures if a in addrs[..i + 1] then Len(p, a) >= 1 && ItemsAt(p'', a) == LowestPart(ItemsAt(p, a), Len(p, a) - 1)
              else p''[a] == p[a]
    {
      RoundCutAt(p, p', p'', addrs, i, a);
    }
  }

  lemma OneLess(p: Lists, p': Lists, a: Address)
    requires SameBut(p, p', a) && Len(p, a) >= 1 && ItemsAt(p', a) == LowestPart(ItemsAt(p, a), Len(p, a) - 1)
    ensures Total(p') == Total(p) - 1
  {
    hide LowestPart, SameBut, Total, ItemsAt;
    LowestOfLowest(ItemsAt(p, a), Len(p, a) - 1, Len(p, a) - 1);
    TotalSameBut(p, p', a);
  }

  lemma RoundCutAt(p: Lists, p': Lists, p'': Lists, addrs: seq<Address>, i: nat, a: Address)
    requires Distinct(addrs) && i < |addrs| && RoundCut(p, p', addrs[..i])
    requires Len(p, addrs[i]) >= 1 && SameBut(p', p'', addrs[i]) && addrs[i] in p''
    requires ItemsAt(p'', addrs[i]) == LowestPart(ItemsAt(p', addrs[i]), Len(p', addrs[i]) - 1)
    requires a in p
    ensures if a in addrs[..i + 1] then Len(p, a) >= 1 && ItemsAt(p'', a) == LowestPart(ItemsAt(p, a), Len(p, a) - 1)
            else a in p'' && p''[a] == p[a]
  {
    hide LowestPart, SameBut;
    var x := addrs[i];
    assert x !in addrs[..i];
    assert addrs[..i + 1] == addrs[..i] + [x];
    if a != x { SameElsewhere(p', p'', x, a); }
  }

  lemma {:induction false} Maximum(spam: map<Address, nat>) returns (x: Address)
    requires spam != map[]
    ensures x in spam && forall b | b in spam :: spam[b] <= spam[x]
    decreases |spam|
  {
    x :| x in spam;
    var rest := spam - {x};
    if rest != map[] {
      var y := Maximum(rest);
      forall b | b in spam && b != x
        ensures spam[b] <= spam[y]
      {
        assert b in rest;
      }
      if spam[x] < spam[y] { x := y; }
    }
  }

  lemma MaxExists(spam: map<Address, nat>)
    requires spam != map[]
    ensures exists x | x in spam :: forall b | b in spam :: spam[b] <= spam[x]
  {
    var x := Maximum(spam);
  }

  lemma NewestUncut(p0: Lists, p: Lists, locals: set<Address>, slots: nat, limit: nat, total: nat,
                    offenders: seq<Address>, spam: map<Address, nat>, e: nat)
    requires |offenders| > 1 && Cutting(p0, p, locals, slots, limit, total, offenders, spam, |offenders| - 1, e)
    ensures Len(p, offenders[|offenders| - 1]) == Len(p0, offenders[|offenders| - 1]) > slots
    ensures Len(p, offenders[|offenders| - 2]) == e
  {
    var k := |offenders| - 1;
    OffenderListed(p0, p, locals, slots, offenders, spam, k);
    assert offenders[k] in offenders;
    assert offenders[k] !in offenders[..k];
  }

  lemma LevelOf(p0: Lists, p: Lists, locals: set<Address>, slots: nat, limit: nat, total: nat, offenders: seq<Address>,
                spam: map<Address, nat>, k: nat, e: nat)
    requires Cutting(p0, p, locals, slots, limit, total, offenders, spam, k, e) && 0 < k <= |offenders|
    ensures Len(p, offenders[k - 1]) == e
  {
  }

  /** While the level is above the guarantee, a round can be cut. */
  lemma CutReady(p0: Lists, p: Lists, locals: set<Address>, slots: nat, limit: nat, total: nat, offenders: seq<Address>,
                 spam: map<Address, nat>, k: nat, e: nat)
    requires Cutting(p0, p, locals, slots, limit, total, offenders, spam, k, e) && e > slots >= 1
    ensures k <= |offenders| && Distinct(offenders[..k])
    ensures forall i | 0 <= i < k :: offenders[..k][i] in p && Len(p, offenders[..k][i]) >= 2
  {
    forall i | 0 <= i < k
      ensures offenders[..k][i] in p && Len(p, offenders[..k][i]) >= 2
    {
      OffenderListed(p0, p, locals, slots, offenders, spam, i);
    }
  }

  // ---------- Truncating the queue ----------

  function BeatOf(beats: map<Address, nat>, a: Address): nat {
    if a in beats then beats[a] else 0
  }

  lemma {:induction false} Highest(m: Items) returns (x: nat)
    requires m != map[]
    ensures x in m && forall y | y in m :: y <= x
    decreases |m|
  {
    x :| x in m;
    var rest := m - {x};
    if rest != map[] {
      var y := Highest(rest);
      forall z | z in m && z != x
        ensures z <= y
      {
        assert z in rest;
      }
      if x < y { x := y; }
    }
  }

  lemma HighestExists(m: Items)
    requires m != map[]
    ensures exists x | x in m :: forall y | y in m :: y <= x
  {
    var x := Highest(m);
  }

  lemma WithoutHighest(m: Items, top: nat)
    requires top in m && forall y | y in m :: y <= top
    ensures m - {top} == LowestPart(m, |m| - 1) && |m - {top}| == |m| - 1
  {
    var r := (m - {top}).Keys;
    assert r == m.Keys - {top};
    LowestUnique(m.Keys, r);
  }

  /** Local accounts keep everything; the total meets the limit exactly, or no remote transaction is left; what an
      account loses are its highest nonces; and an account loses something only if every remote account with a
      later heartbeat has lost everything. */
  ghost predicate QueueTruncated(q0: Lists, q: Lists, locals: set<Address>, limit: nat, beats: map<Address, nat>) {
    && TrimmedAll(q0, q)
    && (forall a | a in locals :: ItemsAt(q, a) == ItemsAt(q0, a))
    && (Total(q0) <= limit ==> q == q0)
    && (Total(q0) > limit ==>
          Total(q) == limit || (Total(q) > limit && forall a | a !in locals :: ItemsAt(q, a) == map[]))
    && LaterFirst(q0, q, locals, beats)
  }

  /** The remote accounts not yet visited, oldest heartbeat first, all of them older than the visited ones. */
  ghost predicate Unvisited(q0: Lists, locals: set<Address>, beats: map<Address, nat>, addresses: seq<Address>) {
    && Distinct(addresses)
    && (forall i, j | 0 <= i < j < |addresses| :: BeatOf(beats, addresses[i]) <= BeatOf(beats, addresses[j]))
    && (forall a | a in addresses :: a in q0 && a !in locals)
    && (forall a, b | a in addresses && b in q0 && b !in locals && b !in addresses ::
          BeatOf(beats, a) <= BeatOf(beats, b))
  }

  /** An account has lost something only if every remote account with a later heartbeat has lost everything. */
  ghost predicate LaterFirst(q0: Lists, q: Lists, locals: set<Address>, beats: map<Address, nat>) {
    forall a, b |
      b !in locals && b in beats && Len(q, a) < Len(q0, a) && (if a in beats then beats[a] else 0) < beats[b] ::
      ItemsAt(q, b) == map[]
  }

  /** The accounts of `addresses` are untouched, the other remote ones are empty, and `drop` remains to be dropped. */
  ghost predicate QueueCutting(q0: Lists, q: Lists, locals: set<Address>, limit: nat, beats: map<Address, nat>,
                               addresses: seq<Address>, drop: nat) {
    && Unvisited(q0, locals, beats, addresses) && TrimmedAll(q0, q) && LaterFirst(q0, q, locals, beats)
    && (forall a | a in locals || a in addresses :: ItemsAt(q, a) == ItemsAt(q0, a))
    && Total(q0) > limit && Total(q) == limit + drop
    && (drop > 0 ==> forall b | b !in locals && b !in addresses :: ItemsAt(q, b) == map[])
  }

  /** Every account of `q` holds the lowest nonces it holds in `q0`. */
  ghost predicate TrimmedAll(q0: Lists, q: Lists) {
    forall a :: Len(q, a) <= Len(q0, a) && ItemsAt(q, a) == LowestPart(ItemsAt(q0, a), Len(q, a))
  }

  lemma TrimNone(q: Lists)
    ensures TrimmedAll(q, q)
  {
    forall a
      ensures ItemsAt(q, a) == LowestPart(ItemsAt(q, a), Len(q, a))
    {
      WholeIsLowest(ItemsAt(q, a));
    }
  }

  lemma QueueUntouched(q: Lists, locals: set<Address>, limit: nat, beats: map<Address, nat>)
    requires Total(q) <= limit
    ensures QueueTruncated(q, q, locals, limit, beats)
  {
    TrimNone(q);
  }

  lemma QueueStart(q: Lists, locals: set<Address>, limit: nat, beats: map<Address, nat>, addresses: seq<Address>)
    requires Total(q) > limit && multiset(addresses) == multiset(set a | a in q && a !in locals)
    requires forall i, j | 0 <= i < j < |addresses| :: BeatOf(beats, addresses[i]) <= BeatOf(beats, addresses[j])
    ensures QueueCutting(q, q, locals, limit, beats, addresses, Total(q) - limit)
  {
    var remotes := set a | a in q && a !in locals;
    TrimNone(q);
    assert forall a :: a in addresses <==> a in multiset(addresses);
    forall i, j | 0 <= i < j < |addresses|
      ensures addresses[i] != addresses[j]
    {
      if addresses[i] == addresses[j] {
        HeldTwice(addresses, i, j);
      }
    }
  }

  lemma QueueNext(q0: Lists, q: Lists, locals: set<Address>, limit: nat, beats: map<Address, nat>,
                  addresses: seq<Address>, drop: nat)
    requires QueueCutting(q0, q, locals, limit, beats, addresses, drop) && |addresses| > 0
    ensures ItemsAt(q, addresses[|addresses| - 1]) == ItemsAt(q0, addresses[|addresses| - 1])
  {
    assert addresses[|addresses| - 1] in addresses;
  }

  lemma QueueStep(q0: Lists, q: Lists, q': Lists, locals: set<Address>, limit: nat, beats: map<Address, nat>,
                  addresses: seq<Address>, drop: nat, n: nat)
    requires QueueCutting(q0, q, locals, limit, beats, addresses, drop) && |addresses| > 0 && drop > 0
    requires var a := addresses[|addresses| - 1];
             && n == (if Len(q, a) <= drop then Len(q, a) else drop)
             && SameBut(q, q', a) && ItemsAt(q', a) == LowestPart(ItemsAt(q, a), Len(q, a) - n)
    ensures QueueCutting(q0, q', locals, limit, beats, addresses[..|addresses| - 1], drop - n)
  {
    hide SameBut, LowestPart, Total, Len, TrimmedAll, LaterFirst, Unvisited;
    var last := |addresses| - 1;
    var a := addresses[last];
    var rest := addresses[..last];
    QueueNext(q0, q, locals, limit, beats, addresses, drop);
    QueueStepCounts(q0, q, q', a, n);
    VisitLast(q0, locals, beats, addresses);
    StillLaterFirst(q0, q, q', locals, limit, beats, addresses, drop);
  }

  lemma LastApart(s: seq<Address>)
    requires Distinct(s) && |s| > 0
    ensures var rest, a := s[..|s| - 1], s[|s| - 1];
            && Distinct(rest) && a !in rest && (forall b | b in s :: b in rest || b == a)
            && forall b | b in rest :: b in s
  {
  }

  lemma VisitLast(q0: Lists, locals: set<Address>, beats: map<Address, nat>, addresses: seq<Address>)
    requires Unvisited(q0, locals, beats, addresses) && |addresses| > 0
    ensures Unvisited(q0, locals, beats, addresses[..|addresses| - 1])
    ensures addresses[|addresses| - 1] !in addresses[..|addresses| - 1] && addresses[|addresses| - 1] !in locals
    ensures forall b | b in addresses :: b in addresses[..|addresses| - 1] || b == addresses[|addresses| - 1]
    ensures forall b | b in addresses[..|addresses| - 1] :: b in addresses
  {
    hide BeatOf;
    var rest := addresses[..|addresses| - 1];
    var a := addresses[|addresses| - 1];
    LastApart(addresses);
    assert a in addresses;
    forall x, b | x in rest && b in q0 && b !in locals && b !in rest
      ensures BeatOf(beats, x) <= BeatOf(beats, b)
    {
      if b == a {
        var i :| 0 <= i < |rest| && rest[i] == x;
        assert addresses[i] == x;
      }
    }
  }

  lemma StillLaterFirst(q0: Lists, q: Lists, q': Lists, locals: set<Address>, limit: nat, beats: map<Address, nat>,
                        addresses: seq<Address>, drop: nat)
    requires QueueCutting(q0, q, locals, limit, beats, addresses, drop) && |addresses| > 0 && drop > 0
    requires var a := addresses[|addresses| - 1];
             && (ItemsAt(q, a) == map[] ==> ItemsAt(q', a) == map[])
             && forall b | b != a :: ItemsAt(q', b) == ItemsAt(q, b)
    ensures LaterFirst(q0, q', locals, beats)
  {
    hide LowestPart, Total, TrimmedAll;
    forall x, y | y !in locals && Len(q', x) < Len(q0, x) && BeatOf(beats, x) < BeatOf(beats, y)
      ensures ItemsAt(q', y) == map[]
    {
      LaterIsEmpty(q0, q, locals, limit, beats, addresses, drop, x, y);
    }
  }

  lemma QueueStepCounts(q0: Lists, q: Lists, q': Lists, a: Address, n: nat)
    requires TrimmedAll(q0, q)
    requires n <= Len(q, a) && ItemsAt(q, a) == ItemsAt(q0, a)
    requires SameBut(q, q', a) && ItemsAt(q', a) == LowestPart(ItemsAt(q, a), Len(q, a) - n)
    ensures Total(q') == Total(q) - n && Len(q', a) == Len(q, a) - n
    ensures n == Len(q, a) || ItemsAt(q, a) == map[] ==> ItemsAt(q', a) == map[]
    ensures forall b | b != a :: ItemsAt(q', b) == ItemsAt(q, b) && Len(q', b) == Len(q, b)
    ensures TrimmedAll(q0, q')
  {
    hide LowestPart, Total, TrimmedAll, SameBut;
    LowestOfLowest(ItemsAt(q, a), Len(q, a) - n, Len(q, a) - n);
    TotalSameBut(q, q', a);
    forall b | b != a
      ensures ItemsAt(q', b) == ItemsAt(q, b)
    {
      SameElsewhere(q, q', a, b);
    }
    TrimMore(q0, q, q', a);
  }

  lemma TrimMore(q0: Lists, q: Lists, q': Lists, a: Address)
    requires TrimmedAll(q0, q) && forall b | b != a :: ItemsAt(q', b) == ItemsAt(q, b)
    requires Len(q', a) <= Len(q0, a) && ItemsAt(q', a) == LowestPart(ItemsAt(q0, a), Len(q', a))
    ensures TrimmedAll(q0, q')
  {
    hide LowestPart;
    forall b
      ensures Len(q', b) <= Len(q0, b) && ItemsAt(q', b) == LowestPart(ItemsAt(q0, b), Len(q', b))
    {
      if b != a { assert Len(q, b) <= Len(q0, b); }
    }
  }

  /** With something left to drop, accounts with later heartbeats than a touched one, or than the last address, are
      empty. */
  lemma LaterIsEmpty(q0: Lists, q: Lists, locals: set<Address>, limit: nat, beats: map<Address, nat>,
                     addresses: seq<Address>, drop: nat, x: Address, y: Address)
    requires QueueCutting(q0, q, locals, limit, beats, addresses, drop) && |addresses| > 0 && drop > 0
    requires y !in locals && BeatOf(beats, x) < BeatOf(beats, y)
    requires x == addresses[|addresses| - 1] || Len(q, x) < Len(q0, x)
    ensures ItemsAt(q, y) == map[]
  {
    hide LowestPart, Total, TrimmedAll;
    if x == addresses[|addresses| - 1] {
      if y in addresses {
        var i :| 0 <= i < |addresses| && addresses[i] == y;
      }
    }
  }

  lemma QueueDone(q0: Lists, q: Lists, locals: set<Address>, limit: nat, beats: map<Address, nat>,
                  addresses: seq<Address>, drop: nat)
    requires QueueCutting(q0, q, locals, limit, beats, addresses, drop) && (drop == 0 || addresses == [])
    ensures QueueTruncated(q0, q, locals, limit, beats)
  {
    hide LowestPart, Total;
  }

  lemma FairIsWithin(p0: Lists, p: Lists, locals: set<Address>, slots: nat, limit: nat)
    requires FairlyTruncated(p0, p, locals, slots, limit)
    ensures Total(p) <= limit || forall a | a in p && a !in locals :: Len(p, a) <= slots
  {
    hide LowestPart, Total;
  }

  lemma QueueIsWithin(q0: Lists, q: Lists, locals: set<Address>, limit: nat, beats: map<Address, nat>)
    requires QueueTruncated(q0, q, locals, limit, beats) && NoneEmpty(q)
    ensures Total(q) <= limit || forall a | a in q :: a in locals
  {
    hide LowestPart, Total, TrimmedAll, LaterFirst;
    if Total(q) > limit {
      forall a | a in q
        ensures a in locals
      {
        assert q[a].items != map[];
      }
    }
  }
}
