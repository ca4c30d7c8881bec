/** Facts about finite maps from nonces to transactions: sorted listings, lowest parts, consecutive runs. */
module NonceMap {
  import opened Types

  type Items = map<nat, Transaction>

  ghost predicate Keyed(m: Items) {
    forall n | n in m :: m[n].nonce == n
  }

  /** `s` holds every transaction of `m` once, in some order. */
  ghost predicate Collects(m: Items, s: seq<Transaction>) {
    && |s| == |m|
    && (forall i | 0 <= i < |s| :: s[i].nonce in m && m[s[i].nonce] == s[i])
    && (forall i, j | 0 <= i < j < |s| :: s[i].nonce != s[j].nonce)
  }

  ghost predicate Ascending(s: seq<Transaction>) {
    forall i, j | 0 <= i < j < |s| :: s[i].nonce < s[j].nonce
  }

  ghost predicate Descending(s: seq<Transaction>) {
    forall i, j | 0 <= i < j < |s| :: s[i].nonce > s[j].nonce
  }

  /** `s` is the nonce-sorted listing of `m`. */
  ghost predicate IsListing(m: Items, s: seq<Transaction>) {
    Collects(m, s) && Ascending(s)
  }

  ghost function Nonces(s: seq<Transaction>): set<nat> {
    set i | 0 <= i < |s| :: s[i].nonce
  }

  lemma {:induction false} DistinctNonces(s: seq<Transaction>)
    requires forall i, j | 0 <= i < j < |s| :: s[i].nonce != s[j].nonce
    ensures |Nonces(s)| == |s|
    decreases |s|
  {
    if |s| > 0 {
      var k := |s| - 1;
      DistinctNonces(s[..k]);
      assert Nonces(s) == Nonces(s[..k]) + {s[k].nonce} by {
        forall n | n in Nonces(s)
          ensures n in Nonces(s[..k]) + {s[k].nonce}
        {
          var i :| 0 <= i < |s| && s[i].nonce == n;
          if i < k { assert s[..k][i].nonce == n; }
        }
        assert forall i | 0 <= i < k :: s[..k][i] == s[i];
      }
    }
  }

  /** A collection leaves nothing out. */
  lemma CollectsAll(m: Items, s: seq<Transaction>)
    requires Collects(m, s)
    ensures Nonces(s) == m.Keys
  {
    DistinctNonces(s);
    if Nonces(s) != m.Keys {
      StrictSubset(Nonces(s), m.Keys);
    }
  }

  lemma CollectsMember(m: Items, s: seq<Transaction>, n: nat) returns (i: nat)
    requires Collects(m, s) && n in m
    ensures i < |s| && s[i] == m[n]
  {
    CollectsAll(m, s);
    assert n in Nonces(s);
    i :| 0 <= i < |s| && s[i].nonce == n;
  }

  /** A map has only one sorted listing, so a cached one cannot differ from a fresh sort. */
  lemma {:induction false} ListingUnique(m: Items, s: seq<Transaction>, t: seq<Transaction>)
    requires Keyed(m) && IsListing(m, s) && IsListing(m, t)
    ensures s == t
    decreases |s|
  {
    if |s| > 0 {
      SameLast(m, s, t);
      ListingButLast(m, s);
      ListingButLast(m, t);
      ListingUnique(m - {s[|s| - 1].nonce}, s[..|s| - 1], t[..|t| - 1]);
      SameButLast(s, t);
    }
  }

  lemma SameButLast<T>(s: seq<T>, t: seq<T>)
    requires |s| == |t| > 0 && s[..|s| - 1] == t[..|t| - 1] && s[|s| - 1] == t[|t| - 1]
    ensures s == t
  {
    assert s == s[..|s| - 1] + [s[|s| - 1]] && t == t[..|t| - 1] + [t[|t| - 1]];
  }

  lemma ListingButLast(m: Items, s: seq<Transaction>)
    requires Keyed(m) && IsListing(m, s) && |s| > 0
    ensures Keyed(m - {s[|s| - 1].nonce}) && IsListing(m - {s[|s| - 1].nonce}, s[..|s| - 1])
  {
    assert (m - {s[|s| - 1].nonce}).Keys == m.Keys - {s[|s| - 1].nonce};
  }

  lemma SameLast(m: Items, s: seq<Transaction>, t: seq<Transaction>)
    requires Keyed(m) && IsListing(m, s) && IsListing(m, t) && |s| == |t| > 0
    ensures s[|s| - 1] == t[|t| - 1]
  {
    LastIsLargest(m, s);
    LastIsLargest(m, t);
  }

  lemma LastIsLargest(m: Items, s: seq<Transaction>)
    requires Keyed(m) && IsListing(m, s) && |s| > 0
    ensures forall n | n in m :: n <= s[|s| - 1].nonce
  {
    forall n | n in m
      ensures n <= s[|s| - 1].nonce
    {
      var i := CollectsMember(m, s, n);
    }
  }

  predicate IsMin(s: set<nat>, x: nat) {
    x in s && forall y | y in s :: x <= y
  }

  lemma {:induction false} MinExists(s: set<nat>)
    requires s != {}
    ensures exists x :: IsMin(s, x)
    decreases |s|
  {
    var a :| a in s;
    if s == {a} {
      assert IsMin(s, a);
    } else {
      MinExists(s - {a});
      var b :| IsMin(s - {a}, b);
      var x := if a < b then a else b;
      forall y | y in s
        ensures x <= y
      {
        assert y == a || y in s - {a};
      }
      assert IsMin(s, x);
    }
  }

  function Min(s: set<nat>): (x: nat)
    requires s != {}
    ensures IsMin(s, x)
  {
    MinExists(s);
    var x :| x in s && IsMin(s, x);
    x
  }

  /** The part of `m` with nonces at or above `t`. */
  function From(m: Items, t: nat): Items {
    map n | n in m && t <= n :: m[n]
  }

  /** The part of `m` with nonces below `t`. */
  function Below(m: Items, t: nat): Items {
    map n | n in m && n < t :: m[n]
  }

  /** The part of `m` that `f` rejects, that is, what filtering by `f` keeps. */
  function Without(m: Items, f: Transaction -> bool): Items {
    map n | n in m && !f(m[n]) :: m[n]
  }

  function Matching(m: Items, f: Transaction -> bool): Items {
    map n | n in m && f(m[n]) :: m[n]
  }

  /** The `k` smallest members of `s`, or all of them. */
  function Lowest(s: set<nat>, k: nat): set<nat>
    decreases k
  {
    if k == 0 || s == {} then {}
    else
      var x := Min(s);
      {x} + Lowest(s - {x}, k - 1)
  }

  ghost predicate LowerPart(s: set<nat>, r: set<nat>) {
    r <= s && forall a, b | a in r && b in s && b !in r :: a < b
  }

  lemma {:induction false} LowestIsLowerPart(s: set<nat>, k: nat)
    ensures LowerPart(s, Lowest(s, k)) && |Lowest(s, k)| == (if k < |s| then k else |s|)
    decreases k
  {
    if k != 0 && s != {} {
      LowestIsLowerPart(s - {Min(s)}, k - 1);
    }
  }

  /** Being the lowest part of a given size determines the part. */
  lemma LowestUnique(s: set<nat>, r: set<nat>)
    requires LowerPart(s, r)
    ensures r == Lowest(s, |r|)
  {
    SubsetCardinality(r, s);
    LowestIsLowerPart(s, |r|);
    LowerPartsEqual(s, r, Lowest(s, |r|));
  }

  lemma LowerPartsEqual(s: set<nat>, r: set<nat>, q: set<nat>)
    requires LowerPart(s, r) && LowerPart(s, q) && |r| == |q|
    ensures r == q
  {
    if a :| a in r && a !in q {
      if b :| b in q && b !in r {
        assert false;
      } else {
        StrictSubset(q, r);
      }
    } else if r != q {
      StrictSubset(r, q);
    }
  }

  lemma SubsetCardinality<T>(a: set<T>, b: set<T>)
    requires a <= b
    ensures |a| <= |b|
  {
    assert b == a + (b - a);
  }

  lemma StrictSubset<T>(a: set<T>, b: set<T>)
    requires a <= b && a != b
    ensures |a| < |b|
  {
    assert b == a + (b - a);
    assert b - a != {};
  }

  /** What a limit of `k` transactions keeps, and what it drops. */
  function LowestPart(m: Items, k: nat): Items {
    map n | n in m && n in Lowest(m.Keys, k) :: m[n]
  }

  function HighestPart(m: Items, k: nat): Items {
    map n | n in m && n !in Lowest(m.Keys, k) :: m[n]
  }

  /** The members of `s` reached from its minimum by steps of one. */
  predicate InRun(s: set<nat>, n: nat) {
    n in s && forall k | Min(s) <= k <= n :: k in s
  }

  /** What becomes executable when the next expected nonce is `start`: the maximal consecutive run from the
      lowest nonce, or nothing when the lowest nonce is above `start`. */
  function ReadyPart(m: Items, start: nat): Items {
    if m.Keys == {} || Min(m.Keys) > start then map[]
    else map n | n in m && InRun(m.Keys, n) :: m[n]
  }

  function NotReadyPart(m: Items, start: nat): Items {
    m - ReadyPart(m, start).Keys
  }

  /** No nonce is missing between two present ones. */
  ghost predicate Contiguous(s: set<nat>) {
    forall a, b, c | a in s && c in s && a <= b <= c :: b in s
  }

  lemma HeldTwice<T>(s: seq<T>, i: nat, j: nat)
    requires i < j < |s| && s[i] == s[j]
    ensures multiset(s)[s[i]] >= 2
  {
    assert s == s[..i] + [s[i]] + s[i + 1..];
    assert s[i + 1..][j - i - 1] == s[j];
  }
}
