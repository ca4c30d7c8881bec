/** Which transactions the pool takes back when the head changes. */
module PoolResets {
  import opened Options
  import opened Ancestry
  import opened BlockChains

  const MAX_REORG_DEPTH := 64

  function Distance(a: nat, b: nat): nat {
    if a < b then b - a else a - b
  }

  /** The chain of `h` includes transaction `t`. */
  ghost predicate OnChain(headers: Store, bodies: Bodies, genesis: Header, h: Hash, t: TxHash)
    requires StoreOk(headers, bodies, genesis) && h in headers
  {
    exists n: nat :: n <= headers[h].number && t in bodies[AncestorAt(headers, genesis, h, n)]
  }

  /** The chain of `h` includes `t` above height `f`. */
  ghost predicate OnBranch(headers: Store, bodies: Bodies, genesis: Header, h: Hash, f: nat, t: TxHash)
    requires StoreOk(headers, bodies, genesis) && h in headers
  {
    exists n: nat :: f < n <= headers[h].number && t in bodies[AncestorAt(headers, genesis, h, n)]
  }

  lemma BranchTxs(headers: Store, bodies: Bodies, genesis: Header, h: Hash, f: nat, t: TxHash)
    requires StoreOk(headers, bodies, genesis) && h in headers && f <= headers[h].number
    ensures InTxs(Branch(headers, bodies, genesis, h, f), 0, t) <==> OnBranch(headers, bodies, genesis, h, f, t)
  {
    hide ParentClosed, AncestorAt;
    var branch := Branch(headers, bodies, genesis, h, f);
    if OnBranch(headers, bodies, genesis, h, f, t) {
      var n: nat :| f < n <= headers[h].number && t in bodies[AncestorAt(headers, genesis, h, n)];
      assert branch[headers[h].number - n] == BlockAt(headers, bodies, genesis, h, n);
    }
    if InTxs(branch, 0, t) {
      var j: nat :| 0 <= j < |branch| && t in branch[j].txs;
      assert branch[j] == BlockAt(headers, bodies, genesis, h, headers[h].number - j);
    }
  }

  /** Below where two chains meet they are one. */
  lemma SharedBelow(headers: Store, genesis: Header, a: Hash, b: Hash, f: nat, n: nat)
    requires ParentClosed(headers, genesis) && a in headers && b in headers && Meet(headers, genesis, a, b, f) && n <= f
    ensures AncestorAt(headers, genesis, a, n) == AncestorAt(headers, genesis, b, n)
  {
    AncestorOfAncestor(headers, genesis, a, f, n);
    AncestorOfAncestor(headers, genesis, b, f, n);
  }

  /** What the old chain has above the fork and the new one has not, is what the old chain has and the new one has not.
      */
  lemma LostIsAboveFork(headers: Store, bodies: Bodies, genesis: Header, a: Hash, b: Hash, f: nat, t: TxHash)
    requires StoreOk(headers, bodies, genesis) && Once(headers, bodies, genesis)
    requires a in headers && b in headers && Meet(headers, genesis, a, b, f)
    ensures OnBranch(headers, bodies, genesis, a, f, t) && !OnBranch(headers, bodies, genesis, b, f, t)
            <==> OnChain(headers, bodies, genesis, a, t) && !OnChain(headers, bodies, genesis, b, t)
  {
    hide ParentClosed, AncestorAt, Once;
    if OnBranch(headers, bodies, genesis, a, f, t) && !OnBranch(headers, bodies, genesis, b, f, t) {
      var n: nat :| f < n <= headers[a].number && t in bodies[AncestorAt(headers, genesis, a, n)];
      forall m: nat | m <= headers[b].number
        ensures t !in bodies[AncestorAt(headers, genesis, b, m)]
      {
        if m <= f {
          SharedBelow(headers, genesis, a, b, f, m);
          OnceOnChain(headers, bodies, genesis, a, m, n);
        }
      }
    }
    if OnChain(headers, bodies, genesis, a, t) && !OnChain(headers, bodies, genesis, b, t) {
      var n: nat :| n <= headers[a].number && t in bodies[AncestorAt(headers, genesis, a, n)];
      if n <= f {
        SharedBelow(headers, genesis, a, b, f, n);
      }
    }
  }

  /** The heads are on different chains, and close enough to look for what got lost. */
  predicate Shallow(oldHead: Option<Header>, newHead: Header) {
    && oldHead.Some? && oldHead.value.hash != newHead.parent
    && Distance(oldHead.value.number, newHead.number) <= MAX_REORG_DEPTH
  }

  /** The transactions to take back on the way from one head to another; None when the reset is given up. A shallow
      reorganisation takes back exactly what the old chain included and the new one does not. */
  method Reinjected(headers: Store, bodies: Bodies, ghost genesis: Header, oldHead: Option<Header>, newHead: Header)
    returns (r: Option<seq<TxHash>>)
    requires StoreOk(headers, bodies, genesis) && Once(headers, bodies, genesis)
    requires newHead.hash in headers && headers[newHead.hash] == newHead
    ensures !Shallow(oldHead, newHead) ==> r == Some([])
    ensures Shallow(oldHead, newHead) <==>
              && oldHead.Some? && oldHead.value.hash != newHead.parent
              && oldHead.value.number - 64 <= newHead.number <= oldHead.value.number + 64
    ensures Shallow(oldHead, newHead) ==>
              var old0 := oldHead.value;
              if old0.hash !in headers || headers[old0.hash].number != old0.number
              then r == if newHead.number >= old0.number then None else Some([])
              else
                && r.Some?
                && forall t :: t in r.value <==> OnChain(headers, bodies, genesis, old0.hash, t)
                                                 && !OnChain(headers, bodies, genesis, newHead.hash, t)
  {
    hide ParentClosed, Once, IsFork, InTxs, OnChain;
    r := Some([]);
    if oldHead.Some? && oldHead.value.hash != newHead.parent {
      if Distance(oldHead.value.number, newHead.number) <= MAX_REORG_DEPTH {
        var rem := GetBlock(headers, bodies, oldHead.value.hash, oldHead.value.number);
        if rem.None? {
          return if newHead.number >= oldHead.value.number then None else Some([]);
        }
        var add := Block(newHead, bodies[newHead.hash]);
        StoredBlock(headers, bodies, genesis, oldHead.value.hash);
        StoredBlock(headers, bodies, genesis, newHead.hash);
        var fork := FindFork(headers, bodies, genesis, rem.value, add, true);
        var discarded := CollectTxs(fork.value.oldChain);
        var included := CollectTxs(fork.value.newChain);
        var lost := TxDifference(discarded, included);
        forall t
          ensures t in lost <==> OnChain(headers, bodies, genesis, oldHead.value.hash, t)
                                 && !OnChain(headers, bodies, genesis, newHead.hash, t)
        {
          LostFrom(headers, bodies, genesis, rem.value, add, fork.value, t);
        }
        r := Some(lost);
      }
    }
  }

  lemma StoredBlock(headers: Store, bodies: Bodies, genesis: Header, h: Hash)
    requires StoreOk(headers, bodies, genesis) && h in headers
    ensures h in bodies && headers[h].hash == h
  {
    assert HeaderOk(headers, genesis, h);
  }

  lemma LostFrom(headers: Store, bodies: Bodies, genesis: Header, a: Block, b: Block, fork: Fork, t: TxHash)
    requires StoreOk(headers, bodies, genesis) && Once(headers, bodies, genesis)
    requires IsStored(headers, bodies, a) && IsStored(headers, bodies, b)
    requires IsFork(headers, bodies, genesis, a, b, fork)
    ensures InTxs(fork.oldChain, 0, t) && !InTxs(fork.newChain, 0, t)
            <==> OnChain(headers, bodies, genesis, a.header.hash, t)
                 && !OnChain(headers, bodies, genesis, b.header.hash, t)
  {
    hide ParentClosed, Once, InTxs, OnChain, OnBranch, Branch, Meet;
    var f := fork.common.header.number;
    assert f <= a.header.number
      && f <= b.header.number by { MeetWithin(headers, genesis, a.header.hash, b.header.hash, f); }
    BranchTxs(headers, bodies, genesis, a.header.hash, f, t);
    BranchTxs(headers, bodies, genesis, b.header.hash, f, t);
    LostIsAboveFork(headers, bodies, genesis, a.header.hash, b.header.hash, f, t);
  }

  lemma MeetWithin(headers: Store, genesis: Header, a: Hash, b: Hash, f: nat)
    requires ParentClosed(headers, genesis) && a in headers && b in headers && Meet(headers, genesis, a, b, f)
    ensures f <= headers[a].number && f <= headers[b].number
  {
  }
}
