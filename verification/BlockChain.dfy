/** BlockChain: stored blocks, the canonical index, the transaction lookup index and the heads, across reorganisations.
    */
module BlockChains {
  import opened Options
  import opened Ancestry
  import HeaderChains

  type TxHash = nat
  type Bodies = map<Hash, seq<TxHash>>
  type Lookups = map<TxHash, nat>

  datatype Block = Block(header: Header, txs: seq<TxHash>)

  /** All blocks that can ever be offered: a hash names one block, and no block repeats a transaction of an ancestor. */
  ghost predicate Sound(u: imap<Hash, Block>) {
    && (forall h | h in u :: u[h].header.hash == h)
    && (forall a, h | a in u && h in u && a != h && Descends(u, h, a) :: Disjoint(u[a].txs, u[h].txs))
  }

  ghost predicate Descends(u: imap<Hash, Block>, h: Hash, a: Hash)
    requires h in u
    decreases u[h].header.number
  {
    h == a ||
    (var p := u[h].header.parent;
     u[h].header.number > 0 && p in u && u[p].header.number == u[h].header.number - 1 && Descends(u, p, a))
  }

  ghost predicate Disjoint(a: seq<TxHash>, b: seq<TxHash>) {
    forall t | t in a :: t !in b
  }

  ghost predicate StoreOk(headers: Store, bodies: Bodies, genesis: Header) {
    ParentClosed(headers, genesis) && headers.Keys == bodies.Keys
  }

  ghost predicate FromUniverse(headers: Store, bodies: Bodies, u: imap<Hash, Block>) {
    headers.Keys == bodies.Keys && forall h | h in headers :: h in u && u[h] == Block(headers[h], bodies[h])
  }

  /** No stored block repeats a transaction of an ancestor. */
  ghost predicate Once(headers: Store, bodies: Bodies, genesis: Header)
    requires StoreOk(headers, bodies, genesis)
  {
    forall h, n: nat | h in headers && n < headers[h].number ::
         Disjoint(bodies[AncestorAt(headers, genesis, h, n)], bodies[h])
  }

  lemma UniverseOnce(headers: Store, bodies: Bodies, genesis: Header, u: imap<Hash, Block>)
    requires StoreOk(headers, bodies, genesis) && Sound(u) && FromUniverse(headers, bodies, u)
    ensures Once(headers, bodies, genesis)
  {
    forall h, n: nat | h in headers && n < headers[h].number
      ensures Disjoint(bodies[AncestorAt(headers, genesis, h, n)], bodies[h])
    {
      AncestorDescends(headers, bodies, genesis, u, h, n);
      assert u[AncestorAt(headers, genesis, h, n)].txs == bodies[AncestorAt(headers, genesis, h, n)];
    }
  }

  lemma {:induction false} AncestorDescends(headers: Store, bodies: Bodies, genesis: Header, u: imap<Hash, Block>,
                                            h: Hash, n: nat)
    requires StoreOk(headers, bodies, genesis) && FromUniverse(headers, bodies, u)
    requires h in headers && n <= headers[h].number
    ensures Descends(u, h, AncestorAt(headers, genesis, h, n))
    decreases headers[h].number
  {
    assert HeaderOk(headers, genesis, h);
    if n < headers[h].number {
      AncestorDescends(headers, bodies, genesis, u, headers[h].parent, n);
    }
  }

  /** Two blocks at different heights of one chain share no transaction. */
  lemma OnceOnChain(headers: Store, bodies: Bodies, genesis: Header, h: Hash, m: nat, n: nat)
    requires StoreOk(headers, bodies, genesis) && Once(headers, bodies, genesis) && h in headers
    requires m < n <= headers[h].number
    ensures Disjoint(bodies[AncestorAt(headers, genesis, h, m)], bodies[AncestorAt(headers, genesis, h, n)])
  {
    AncestorOfAncestor(headers, genesis, h, n, m);
  }

  /** The lookup index holds exactly the transactions of the chain of `head`, each with its block number. */
  ghost predicate Exact(headers: Store, bodies: Bodies, genesis: Header, head: Hash, lookup: Lookups)
    requires StoreOk(headers, bodies, genesis) && head in headers
  {
    && (forall t | t in lookup ::
          lookup[t] <= headers[head].number && t in bodies[AncestorAt(headers, genesis, head, lookup[t])])
    && (forall n: nat, t | n <= headers[head].number && t in bodies[AncestorAt(headers, genesis, head, n)] ::
          t in lookup && lookup[t] == n)
  }

  // ---- Walking two chains to their fork ----

  function GetBlock(headers: Store, bodies: Bodies, hash: Hash, number: nat): Option<Block> {
    if hash in headers && headers[hash].number == number && hash in bodies
      then Some(Block(headers[hash], bodies[hash])) else None
  }

  ghost function BlockAt(headers: Store, bodies: Bodies, genesis: Header, h: Hash, n: nat): (b: Block)
    requires StoreOk(headers, bodies, genesis) && h in headers && n <= headers[h].number
    ensures b.header.number == n && b.header.hash in headers && b.header.hash == AncestorAt(headers, genesis, h, n)
    ensures b.header == headers[b.header.hash] && b.txs == bodies[b.header.hash]
  {
    var a := AncestorAt(headers, genesis, h, n);
    assert HeaderOk(headers, genesis, a);
    Block(headers[a], bodies[a])
  }

  /** The blocks of the chain of `h` above height `n`, from `h` downwards. */
  ghost function Branch(headers: Store, bodies: Bodies, genesis: Header, h: Hash, n: nat): (bs: seq<Block>)
    requires StoreOk(headers, bodies, genesis) && h in headers && n <= headers[h].number
  {
    seq(headers[h].number - n, i requires 0 <= i < headers[h].number - n =>
          BlockAt(headers, bodies, genesis, h, headers[h].number - i))
  }

  ghost predicate IsStored(headers: Store, bodies: Bodies, b: Block) {
    b.header.hash in headers && b.header.hash in bodies && b == Block(headers[b.header.hash], bodies[b.header.hash])
  }

  lemma StepDown(headers: Store, bodies: Bodies, genesis: Header, h: Hash, n: nat)
    requires StoreOk(headers, bodies, genesis) && h in headers && 0 < n <= headers[h].number
    ensures GetBlock(headers, bodies, BlockAt(headers, bodies, genesis, h, n).header.parent, n - 1) ==
              Some(BlockAt(headers, bodies, genesis, h, n - 1))
    ensures Branch(headers, bodies, genesis, h, n) + [BlockAt(headers, bodies, genesis, h, n)]
            == Branch(headers, bodies, genesis, h, n - 1)
  {
    hide ParentClosed, AncestorAt, BlockAt;
    ParentIsAncestor(headers, genesis, AncestorAt(headers, genesis, h, n));
    AncestorOfAncestor(headers, genesis, h, n, n - 1);
  }

  /** Collects the chain of `b` down to height `target`; when all blocks are there, `end` is the ancestor at that
      height. */
  method Descend(headers: Store, bodies: Bodies, ghost genesis: Header, b: Block, target: nat, ghost sound: bool)
    returns (end: Option<Block>, chain: seq<Block>)
    requires target <= b.header.number
    requires sound ==> StoreOk(headers, bodies, genesis) && IsStored(headers, bodies, b)
    ensures end.Some? ==> end.value.header.number == target
    ensures sound ==> end == Some(BlockAt(headers, bodies, genesis, b.header.hash, target))
                      && chain == Branch(headers, bodies, genesis, b.header.hash, target)
  {
    end, chain := Some(b), [];
    while end.Some? && end.value.header.number != target
      invariant end.Some? ==> end.value.header.number >= target
      invariant sound ==> end.Some? && end.value.header.number <= b.header.number
                          && end.value == BlockAt(headers, bodies, genesis, b.header.hash, end.value.header.number)
                          && chain == Branch(headers, bodies, genesis, b.header.hash, end.value.header.number)
      decreases if end.Some? then end.value.header.number + 1 else 0
    {
      if sound { StepDown(headers, bodies, genesis, b.header.hash, end.value.header.number); }
      chain := chain + [end.value];
      end := GetBlock(headers, bodies, end.value.header.parent, end.value.header.number - 1);
    }
  }

  datatype Fork = Fork(common: Block, oldChain: seq<Block>, newChain: seq<Block>)

  /** The chains of `a` and `b` meet at height `f` and not above. */
  ghost predicate Meet(headers: Store, genesis: Header, a: Hash, b: Hash, f: nat)
    requires ParentClosed(headers, genesis) && a in headers && b in headers
  {
    && f <= headers[a].number && f <= headers[b].number
    && AncestorAt(headers, genesis, a, f) == AncestorAt(headers, genesis, b, f)
    && forall n: nat | f < n <= headers[a].number && n <= headers[b].number ::
         AncestorAt(headers, genesis, a, n) != AncestorAt(headers, genesis, b, n)
  }

  ghost predicate IsFork(headers: Store, bodies: Bodies, genesis: Header, a: Block, b: Block, fork: Fork)
    requires StoreOk(headers, bodies, genesis) && IsStored(headers, bodies, a) && IsStored(headers, bodies, b)
  {
    var f := fork.common.header.number;
    && Meet(headers, genesis, a.header.hash, b.header.hash, f)
    && fork.common == BlockAt(headers, bodies, genesis, a.header.hash, f)
    && fork.oldChain == Branch(headers, bodies, genesis, a.header.hash, f)
    && fork.newChain == Branch(headers, bodies, genesis, b.header.hash, f)
  }

  /** Reduces both chains to one height, then steps both back until they meet. */
  method FindFork(headers: Store, bodies: Bodies, ghost genesis: Header, old0: Block, new0: Block, ghost sound: bool)
    returns (r: Option<Fork>)
    requires sound ==>
              StoreOk(headers, bodies, genesis) && IsStored(headers, bodies, old0) && IsStored(headers, bodies, new0)
    ensures sound ==> r.Some? && IsFork(headers, bodies, genesis, old0, new0, r.value)
  {
    var oldEnd, oldChain, newEnd, newChain := Some(old0), [], Some(new0), [];
    if old0.header.number > new0.header.number {
      oldEnd, oldChain := Descend(headers, bodies, genesis, old0, new0.header.number, sound);
    } else {
      newEnd, newChain := Descend(headers, bodies, genesis, new0, old0.header.number, sound);
    }
    if oldEnd.None? || newEnd.None? {
      return None;
    }
    var oldBlock, newBlock := oldEnd.value, newEnd.value;
    while oldBlock.header.hash != newBlock.header.hash
      invariant oldBlock.header.number == newBlock.header.number
      invariant sound ==> Walked(headers, bodies, genesis, old0, new0, oldBlock, newBlock, oldChain, newChain)
      decreases oldBlock.header.number
    {
      if sound { WalkBoth(headers, bodies, genesis, old0, new0, oldBlock, newBlock, oldChain, newChain); }
      oldChain, newChain := oldChain + [oldBlock], newChain + [newBlock];
      if oldBlock.header.number == 0 {
        return None;
      }
      var nextOld := GetBlock(headers, bodies, oldBlock.header.parent, oldBlock.header.number - 1);
      if nextOld.None? {
        return None;
      }
      var nextNew := GetBlock(headers, bodies, newBlock.header.parent, newBlock.header.number - 1);
      if nextNew.None? {
        return None;
      }
      oldBlock, newBlock := nextOld.value, nextNew.value;
    }
    return Some(Fork(oldBlock, oldChain, newChain));
  }

  ghost predicate Walked(headers: Store, bodies: Bodies, genesis: Header, old0: Block, new0: Block, oldBlock: Block,
                         newBlock: Block, oldChain: seq<Block>, newChain: seq<Block>)
    requires StoreOk(headers, bodies, genesis) && IsStored(headers, bodies, old0) && IsStored(headers, bodies, new0)
  {
    var a, b, n := old0.header.hash, new0.header.hash, oldBlock.header.number;
    && n <= old0.header.number && n <= new0.header.number
    && oldBlock == BlockAt(headers, bodies, genesis, a, n) && newBlock == BlockAt(headers, bodies, genesis, b, n)
    && oldChain == Branch(headers, bodies, genesis, a, n) && newChain == Branch(headers, bodies, genesis, b, n)
    && forall m: nat | n < m <= old0.header.number && m <= new0.header.number ::
         AncestorAt(headers, genesis, a, m) != AncestorAt(headers, genesis, b, m)
  }

  lemma OneGenesis(headers: Store, genesis: Header, a: Hash, b: Hash)
    requires ParentClosed(headers, genesis) && a in headers && b in headers && headers[a].number == headers[b].number
    requires a != b
    ensures headers[a].number > 0
  {
    assert HeaderOk(headers, genesis, a) && HeaderOk(headers, genesis, b);
  }

  lemma WalkBoth(headers: Store, bodies: Bodies, genesis: Header, old0: Block, new0: Block, oldBlock: Block,
                 newBlock: Block, oldChain: seq<Block>, newChain: seq<Block>)
    requires StoreOk(headers, bodies, genesis) && IsStored(headers, bodies, old0) && IsStored(headers, bodies, new0)
    requires Walked(headers, bodies, genesis, old0, new0, oldBlock, newBlock, oldChain, newChain)
    requires oldBlock.header.hash != newBlock.header.hash
    ensures var n := oldBlock.header.number;
            && n > 0
            && GetBlock(headers, bodies, oldBlock.header.parent, n - 1).Some?
            && GetBlock(headers, bodies, newBlock.header.parent, n - 1).Some?
            && Walked(headers, bodies, genesis, old0, new0,
                      GetBlock(headers, bodies, oldBlock.header.parent, n - 1).value,
                      GetBlock(headers, bodies, newBlock.header.parent, n - 1).value, oldChain + [oldBlock],
                      newChain + [newBlock])
  {
    hide ParentClosed, Branch, BlockAt, GetBlock, AncestorAt;
    OneGenesis(headers, genesis, oldBlock.header.hash, newBlock.header.hash);
    StepDown(headers, bodies, genesis, old0.header.hash, oldBlock.header.number);
    StepDown(headers, bodies, genesis, new0.header.hash, oldBlock.header.number);
  }

  // ---- What a reorganisation does to the index ----

  /** Entry `n` after the head moved from a chain to the chain of `h`, the two forking at height `f`. Entries above the
      new head are only removed when the new chain has two blocks or more. */
  ghost predicate RelinkedAt(headers: Store, genesis: Header, canon0: Index, canon1: Index, h: Hash, f: nat, n: nat)
    requires ParentClosed(headers, genesis) && h in headers && f <= headers[h].number
  {
    && (n <= f ==> SameAt(canon1, canon0, n))
    && (f < n <= headers[h].number ==> n in canon1 && canon1[n] == AncestorAt(headers, genesis, h, n))
    && (n > headers[h].number ==> if headers[h].number - f >= 2 then n !in canon1 else SameAt(canon1, canon0, n))
  }

  lemma RelinkedIsCanonical(headers: Store, genesis: Header, canon0: Index, canon1: Index, a: Hash, b: Hash, f: nat)
    requires Canonical(headers, genesis, canon0, a) && b in headers && Meet(headers, genesis, a, b, f)
    requires forall n: nat :: RelinkedAt(headers, genesis, canon0, canon1, b, f, n)
    ensures Canonical(headers, genesis, canon1, b) <==>
              headers[b].number >= headers[a].number || headers[b].number - f >= 2
  {
    forall n: nat | n <= headers[b].number
      ensures n in canon1 && canon1[n] == AncestorAt(headers, genesis, b, n)
    {
      assert RelinkedAt(headers, genesis, canon0, canon1, b, f, n);
      if n <= f {
        AncestorOfAncestor(headers, genesis, a, f, n);
        AncestorOfAncestor(headers, genesis, b, f, n);
      }
    }
    assert RelinkedAt(headers, genesis, canon0, canon1, b, f, headers[b].number + 1);
    if headers[b].number >= headers[a].number || headers[b].number - f >= 2 {
      forall n | n in canon1
        ensures n <= headers[b].number
      {
        assert RelinkedAt(headers, genesis, canon0, canon1, b, f, n);
      }
    }
  }

  /** The new chain has at most one block above the fork just when its head's parent is canonical. */
  lemma ShortBranch(headers: Store, genesis: Header, canon: Index, a: Hash, b: Hash, f: nat)
    requires Canonical(headers, genesis, canon, a) && b in headers && Meet(headers, genesis, a, b, f)
    requires headers[b].number > 0
    ensures headers[b].parent in headers
    ensures headers[b].number - f <= 1 <==> HeaderChains.OnIndex(headers, canon, headers[b].parent)
  {
    ParentIsAncestor(headers, genesis, b);
    var p := headers[b].number - 1;
    if f >= p {
      AncestorOfAncestor(headers, genesis, a, f, p);
      AncestorOfAncestor(headers, genesis, b, f, p);
    }
  }

  // ---- What a reorganisation does to the lookups ----

  function Entries(txs: seq<TxHash>, n: nat): Lookups {
    map t | t in txs :: n
  }

  ghost predicate InTxs(chain: seq<Block>, from: nat, t: TxHash) {
    exists j: nat :: from <= j < |chain| && t in chain[j].txs
  }

  /** `lookup1` is `lookup0` with the transactions of the blocks of `chain` from index `from` on entered. */
  ghost predicate Entered(lookup0: Lookups, lookup1: Lookups, chain: seq<Block>, from: nat) {
    && (forall j: nat, t | from <= j < |chain| && t in chain[j].txs ::
          t in lookup1 && lookup1[t] == chain[j].header.number)
    && (forall t | !InTxs(chain, from, t) :: SameAt(lookup1, lookup0, t))
  }

  ghost predicate OnceIn(chain: seq<Block>) {
    forall i: nat, j: nat | i < j < |chain| :: Disjoint(chain[i].txs, chain[j].txs)
  }

  lemma InTxsMore(chain: seq<Block>, i: nat, t: TxHash)
    requires i < |chain|
    ensures InTxs(chain, i, t) <==> InTxs(chain, i + 1, t) || t in chain[i].txs
  {
    if InTxs(chain, i + 1, t) {
      var j: nat :| i + 1 <= j < |chain| && t in chain[j].txs;
      assert InTxs(chain, i, t);
    }
  }

  lemma EnterOne(lookup0: Lookups, lookup1: Lookups, chain: seq<Block>, i: nat)
    requires i < |chain| && Entered(lookup0, lookup1, chain, i + 1) && OnceIn(chain)
    ensures Entered(lookup0, lookup1 + Entries(chain[i].txs, chain[i].header.number), chain, i)
  {
    hide InTxs, OnceIn, Disjoint;
    var lookup2 := lookup1 + Entries(chain[i].txs, chain[i].header.number);
    forall j: nat, t | i <= j < |chain| && t in chain[j].txs
      ensures t in lookup2 && lookup2[t] == chain[j].header.number
    {
      if j != i { ApartAt(chain, i, j, t); }
    }
    forall t | !InTxs(chain, i, t)
      ensures SameAt(lookup2, lookup0, t)
    {
      InTxsMore(chain, i, t);
    }
  }

  lemma ApartAt(chain: seq<Block>, i: nat, j: nat, t: TxHash)
    requires OnceIn(chain) && i < j < |chain| && t in chain[j].txs
    ensures t !in chain[i].txs
  {
    assert Disjoint(chain[i].txs, chain[j].txs);
  }

  lemma BranchIndex(headers: Store, bodies: Bodies, genesis: Header, h: Hash, f: nat, n: nat)
    requires StoreOk(headers, bodies, genesis) && h in headers && f < n <= headers[h].number
    ensures |Branch(headers, bodies, genesis, h, f)| == headers[h].number - f
    ensures Branch(headers, bodies, genesis, h, f)[headers[h].number - n] == BlockAt(headers, bodies, genesis, h, n)
    ensures Branch(headers, bodies, genesis, h, f)[headers[h].number - n].txs
            == bodies[AncestorAt(headers, genesis, h, n)]
  {
  }

  lemma BranchOnce(headers: Store, bodies: Bodies, genesis: Header, h: Hash, f: nat)
    requires StoreOk(headers, bodies, genesis) && Once(headers, bodies, genesis) && h in headers
    requires f <= headers[h].number
    ensures OnceIn(Branch(headers, bodies, genesis, h, f))
  {
    hide Once, AncestorAt, ParentClosed, Branch;
    BranchLength(headers, bodies, genesis, h, f);
    var chain := Branch(headers, bodies, genesis, h, f);
    forall i: nat, j: nat | i < j < |chain|
      ensures Disjoint(chain[i].txs, chain[j].txs)
    {
      hide Disjoint;
      OnceOnChain(headers, bodies, genesis, h, headers[h].number - j, headers[h].number - i);
      BranchIndex(headers, bodies, genesis, h, f, headers[h].number - i);
      BranchIndex(headers, bodies, genesis, h, f, headers[h].number - j);
      DisjointBack(chain[j].txs, chain[i].txs);
    }
  }

  lemma DisjointBack(a: seq<TxHash>, b: seq<TxHash>)
    requires Disjoint(a, b)
    ensures Disjoint(b, a)
  {
  }

  /** The transactions of a branch are those of the chain above the fork. */
  lemma InBranch(headers: Store, bodies: Bodies, genesis: Header, h: Hash, f: nat, n: nat, t: TxHash)
    requires StoreOk(headers, bodies, genesis) && h in headers && f < n <= headers[h].number
    requires t in bodies[AncestorAt(headers, genesis, h, n)]
    ensures InTxs(Branch(headers, bodies, genesis, h, f), 0, t)
  {
    hide AncestorAt, ParentClosed, Branch;
    BranchIndex(headers, bodies, genesis, h, f, n);
  }

  lemma NotInBranch(headers: Store, bodies: Bodies, genesis: Header, h: Hash, f: nat, n: nat, t: TxHash)
    requires StoreOk(headers, bodies, genesis) && Once(headers, bodies, genesis) && h in headers
    requires n <= f <= headers[h].number
    requires t in bodies[AncestorAt(headers, genesis, h, n)]
    ensures !InTxs(Branch(headers, bodies, genesis, h, f), 0, t)
  {
    var chain := Branch(headers, bodies, genesis, h, f);
    forall j: nat | j < |chain|
      ensures t !in chain[j].txs
    {
      hide Once, AncestorAt, ParentClosed, Branch;
      OnceOnChain(headers, bodies, genesis, h, n, headers[h].number - j);
      BranchIndex(headers, bodies, genesis, h, f, headers[h].number - j);
    }
  }

  /** `lookup1` holds the transactions of the new branch, lost those of the old branch only, and kept the others. */
  ghost predicate Switched(lookup0: Lookups, lookup1: Lookups, oldChain: seq<Block>, newChain: seq<Block>) {
    && (forall j: nat, t | j < |newChain| && t in newChain[j].txs ::
          t in lookup1 && lookup1[t] == newChain[j].header.number)
    && (forall t | !InTxs(newChain, 0, t) && InTxs(oldChain, 0, t) :: t !in lookup1)
    && (forall t | !InTxs(newChain, 0, t) && !InTxs(oldChain, 0, t) :: SameAt(lookup1, lookup0, t))
  }

  lemma SwitchedIsExact(headers: Store, bodies: Bodies, genesis: Header, a: Hash, b: Hash, f: nat, lookup0: Lookups,
                        lookup1: Lookups)
    requires StoreOk(headers, bodies, genesis) && Once(headers, bodies, genesis) && a in headers && b in headers
    requires Meet(headers, genesis, a, b, f) && Exact(headers, bodies, genesis, a, lookup0)
    requires Switched(lookup0, lookup1, Branch(headers, bodies, genesis, a, f), Branch(headers, bodies, genesis, b, f))
    ensures Exact(headers, bodies, genesis, b, lookup1)
  {
    hide Once, AncestorAt, ParentClosed, Branch, Switched, Meet;
    forall n: nat, t | n <= headers[b].number && t in bodies[AncestorAt(headers, genesis, b, n)]
      ensures t in lookup1 && lookup1[t] == n
    {
      OnNewChain(headers, bodies, genesis, a, b, f, lookup0, lookup1, n, t);
    }
    forall t | t in lookup1
      ensures lookup1[t] <= headers[b].number && t in bodies[AncestorAt(headers, genesis, b, lookup1[t])]
    {
      FromLookup(headers, bodies, genesis, a, b, f, lookup0, lookup1, t);
    }
  }

  lemma OnNewChain(headers: Store, bodies: Bodies, genesis: Header, a: Hash, b: Hash, f: nat, lookup0: Lookups,
                   lookup1: Lookups, n: nat, t: TxHash)
    requires StoreOk(headers, bodies, genesis) && Once(headers, bodies, genesis) && a in headers && b in headers
    requires Meet(headers, genesis, a, b, f) && Exact(headers, bodies, genesis, a, lookup0)
    requires Switched(lookup0, lookup1, Branch(headers, bodies, genesis, a, f), Branch(headers, bodies, genesis, b, f))
    requires n <= headers[b].number && t in bodies[AncestorAt(headers, genesis, b, n)]
    ensures t in lookup1 && lookup1[t] == n
  {
    hide Once, AncestorAt, ParentClosed, Branch, InTxs;
    if n > f {
      BranchIndex(headers, bodies, genesis, b, f, n);
    } else {
      AncestorOfAncestor(headers, genesis, a, f, n);
      AncestorOfAncestor(headers, genesis, b, f, n);
      NotInBranch(headers, bodies, genesis, a, f, n, t);
      NotInBranch(headers, bodies, genesis, b, f, n, t);
    }
  }

  lemma FromLookup(headers: Store, bodies: Bodies, genesis: Header, a: Hash, b: Hash, f: nat, lookup0: Lookups,
                   lookup1: Lookups, t: TxHash)
    requires StoreOk(headers, bodies, genesis) && Once(headers, bodies, genesis) && a in headers && b in headers
    requires Meet(headers, genesis, a, b, f) && Exact(headers, bodies, genesis, a, lookup0)
    requires Switched(lookup0, lookup1, Branch(headers, bodies, genesis, a, f), Branch(headers, bodies, genesis, b, f))
    requires t in lookup1
    ensures lookup1[t] <= headers[b].number && t in bodies[AncestorAt(headers, genesis, b, lookup1[t])]
  {
    hide Once, AncestorAt, ParentClosed;
    var newChain := Branch(headers, bodies, genesis, b, f);
    if InTxs(newChain, 0, t) {
      var j: nat :| j < |newChain| && t in newChain[j].txs;
      BranchIndex(headers, bodies, genesis, b, f, headers[b].number - j);
    } else {
      assert SameAt(lookup1, lookup0, t);
      var n := lookup0[t];
      if n > f {
        InBranch(headers, bodies, genesis, a, f, n, t);
      } else {
        AncestorOfAncestor(headers, genesis, a, f, n);
        AncestorOfAncestor(headers, genesis, b, f, n);
      }
    }
  }

  // ---- The steps of a reorganisation ----

  ghost predicate Descending(chain: seq<Block>) {
    forall j: nat | j < |chain| :: chain[j].header.number == chain[0].header.number - j
  }

  /** The index entries of the blocks of a descending chain from index `from` on. */
  ghost function MarksFrom(chain: seq<Block>, from: nat): Index
    requires Descending(chain)
  {
    if chain == [] then map[]
    else map n: nat | chain[0].header.number - |chain| < n <= chain[0].header.number - from :: HashIn(chain, n)
  }

  ghost function HashIn(chain: seq<Block>, n: nat): Hash
    requires chain != [] && chain[0].header.number - |chain| < n <= chain[0].header.number
  {
    chain[chain[0].header.number - n].header.hash
  }

  lemma NoMarks(chain: seq<Block>, canon: Index)
    requires Descending(chain)
    ensures forall from: nat | from >= |chain| :: canon == canon + MarksFrom(chain, from)
  {
  }

  lemma MarkOne(chain: seq<Block>, i: nat)
    requires Descending(chain) && i < |chain|
    ensures MarksFrom(chain, i) == MarksFrom(chain, i + 1)[chain[i].header.number := chain[i].header.hash]
  {
  }

  method EnterTxs(lookup: Lookups, txs: seq<TxHash>, n: nat) returns (next: Lookups)
    ensures next == lookup + Entries(txs, n)
  {
    next := lookup;
    for i := 0 to |txs|
      invariant next == lookup + Entries(txs[..i], n)
    {
      next := next[txs[i] := n];
      assert txs[..i + 1] == txs[..i] + [txs[i]];
    }
    assert txs[..|txs|] == txs;
  }

  method CollectTxs(chain: seq<Block>) returns (txs: seq<TxHash>)
    ensures forall t :: t in txs <==> InTxs(chain, 0, t)
  {
    txs := [];
    var i := |chain|;
    while i > 0
      invariant 0 <= i <= |chain| && forall t :: t in txs <==> InTxs(chain, i, t)
    {
      i := i - 1;
      forall t { InTxsMore(chain, i, t); }
      txs := chain[i].txs + txs;
    }
  }

  method TxDifference(a: seq<TxHash>, b: seq<TxHash>) returns (keep: seq<TxHash>)
    ensures forall t :: t in keep <==> t in a && t !in b
  {
    keep := [];
    for i := 0 to |a|
      invariant forall t :: t in keep <==> t in a[..i] && t !in b
    {
      assert a[..i + 1] == a[..i] + [a[i]];
      if a[i] !in b {
        keep := keep + [a[i]];
      }
    }
    assert a[..|a|] == a;
  }

  method DropTxs(lookup: Lookups, txs: seq<TxHash>) returns (next: Lookups)
    ensures next == map t | t in lookup && t !in txs :: lookup[t]
  {
    next := lookup;
    for i := 0 to |txs|
      invariant next == map t | t in lookup && t !in txs[..i] :: lookup[t]
    {
      next := next - {txs[i]};
      assert txs[..i + 1] == txs[..i] + [txs[i]];
    }
    assert txs[..|txs|] == txs;
  }

  /** What `Reorg` leaves: the new branch entered but for its head, the old branch's own transactions dropped, and no
      index entry above the block last written. */
  ghost predicate Reorganised(canon0: Index, canon1: Index, lookup0: Lookups, lookup1: Lookups, fork: Fork, top: nat) {
    && Descending(fork.newChain)
    && (forall n: nat :: if n > top then n !in canon1 else SameAt(canon1, canon0 + MarksFrom(fork.newChain, 1), n))
    && (forall j: nat, t | 1 <= j < |fork.newChain| && t in fork.newChain[j].txs ::
          t in lookup1 && lookup1[t] == fork.newChain[j].header.number)
    && (forall t | !InTxs(fork.newChain, 1, t) && InTxs(fork.oldChain, 0, t) :: t !in lookup1)
    && (forall t | !InTxs(fork.newChain, 1, t) && !InTxs(fork.oldChain, 0, t) :: SameAt(lookup1, lookup0, t))
  }

  class BlockChain {
    ghost const universe: imap<Hash, Block>
    const genesis: Header
    var headers: Store
    var bodies: Bodies
    var canon: Index
    var lookup: Lookups
    var current: Block
    var headHeader: Header
    var headFast: Block

    ghost predicate Stored()
      reads this
    {
      && StoreOk(headers, bodies, genesis) && IsStored(headers, bodies, current)
      && Sound(universe) && FromUniverse(headers, bodies, universe)
    }

    /** Index and lookups are those of the current block's chain, and the three heads agree. */
    ghost predicate Valid()
      reads this
    {
      && Stored()
      && Canonical(headers, genesis, canon, current.header.hash)
      && Exact(headers, bodies, genesis, current.header.hash, lookup)
      && headHeader == current.header && headFast == current
    }

    constructor (genesis: Header, ghost universe: imap<Hash, Block>)
      requires Sound(universe) && genesis.number == 0 && genesis.hash in universe
      requires universe[genesis.hash] == Block(genesis, [])
      ensures Valid() && this.genesis == genesis && this.universe == universe && current == Block(genesis, [])
      ensures headers == map[genesis.hash := genesis]
    {
      this.genesis, this.universe := genesis, universe;
      headers, bodies := map[genesis.hash := genesis], map[genesis.hash := []];
      canon, lookup := map[0 := genesis.hash], map[];
      current, headHeader, headFast := Block(genesis, []), genesis, Block(genesis, []);
    }

    /** Makes `block` canonical at its number and the head; the other heads follow if it was not canonical before. */
    method WriteHeadBlock(block: Block)
      modifies `canon, `lookup, `current, `headHeader, `headFast
      ensures canon == old(canon)[block.header.number := block.header.hash]
      ensures lookup == old(lookup) + Entries(block.txs, block.header.number)
      ensures current == block
      ensures if block.header.number in old(canon) && old(canon)[block.header.number] == block.header.hash
              then headHeader == old(headHeader) && headFast == old(headFast)
              else headHeader == block.header && headFast == block
    {
      var updateHeads := !(block.header.number in canon && canon[block.header.number] == block.header.hash);
      canon := canon[block.header.number := block.header.hash];
      lookup := EnterTxs(lookup, block.txs, block.header.number);
      if updateHeads {
        headHeader := block.header;
        headFast := block;
      }
      current := block;
    }

    /** Writes a branch from its lowest block up, all but its head. */
    method WriteBranch(chain: seq<Block>) returns (added: seq<TxHash>)
      requires Descending(chain) && OnceIn(chain)
      modifies `canon, `lookup, `current, `headHeader, `headFast
      ensures canon == old(canon) + MarksFrom(chain, 1) && Entered(old(lookup), lookup, chain, 1)
      ensures forall t :: t in added <==> InTxs(chain, 1, t)
      ensures current == if |chain| >= 2 then chain[1] else old(current)
      ensures |chain| < 2 ==> headHeader == old(headHeader) && headFast == old(headFast)
    {
      hide OnceIn, InTxs, Entered, MarksFrom, Descending;
      added := [];
      NothingYet(lookup, chain);
      NoMarks(chain, canon);
      var i := |chain| - 1;
      while i >= 1
        invariant -1 <= i < |chain| && (i == -1 <==> chain == []) && Entered(old(lookup), lookup, chain, i + 1)
        invariant canon == old(canon) + MarksFrom(chain, i + 1)
        invariant forall t :: t in added <==> InTxs(chain, i + 1, t)
        invariant current == if i + 1 < |chain| then chain[i + 1] else old(current)
        invariant i + 1 == |chain| ==>
                  headHeader == old(headHeader) && headFast == old(headFast) && lookup == old(lookup)
      {
        EnterOne(old(lookup), lookup, chain, i);
        MarkOne(chain, i);
        forall t { InTxsMore(chain, i, t); }
        WriteHeadBlock(chain[i]);
        added := added + chain[i].txs;
        i := i - 1;
      }
      if chain == [] {
        NothingYet(lookup, chain);
      }
    }

    /** Moves the index and the lookups from the current chain to that of `newBlock`, but for `newBlock` itself. */
    method Reorg(oldBlock: Block, newBlock: Block) returns (ok: bool, ghost fork: Fork)
      requires Valid() && oldBlock == current && IsStored(headers, bodies, newBlock)
      modifies `canon, `lookup, `current, `headHeader, `headFast
      ensures ok && IsFork(headers, bodies, genesis, oldBlock, newBlock, fork)
      ensures current == if |fork.newChain| >= 2 then fork.newChain[1] else oldBlock
      ensures |fork.newChain| < 2 ==> headHeader == old(headHeader) && headFast == old(headFast)
      ensures Reorganised(old(canon), canon, old(lookup), lookup, fork, current.header.number)
    {
      hide Canonical, Exact, Sound, FromUniverse, OnceIn, Entered, Descending, ParentClosed, IsFork, InTxs, MarksFrom;
      var plan := FindFork(headers, bodies, genesis, oldBlock, newBlock, true);
      ok := plan.Some?;
      if plan.Some? {
        fork := plan.value;
        ForkShape(headers, bodies, genesis, universe, oldBlock, newBlock, fork);
        var deleted := CollectTxs(plan.value.oldChain);
        var added := WriteBranch(plan.value.newChain);
        ghost var entered, marked := lookup, canon;
        var gone := TxDifference(deleted, added);
        lookup := DropTxs(lookup, gone);
        ghost var end: nat;
        MarkedBelow(headers, bodies, genesis, old(canon), marked, oldBlock, newBlock, fork);
        canon, end := HeaderChains.DeleteRun(canon, current.header.number + 1,
                                             oldBlock.header.number + newBlock.header.number + 1);
        Trimmed(headers, bodies, genesis, old(canon), marked, canon, end, oldBlock, newBlock, fork);
        Dropped(old(lookup), entered, lookup, fork, gone);
      }
    }

    /** Makes a stored block the head, reorganising unless it extends the current one. The lookups always come out
        right; the index does unless the new head is lower and its parent was canonical already. */
    method MakeHead(block: Block) returns (ok: bool)
      requires Valid() && IsStored(headers, bodies, block) && block.header.number > 0
      modifies `canon, `lookup, `current, `headHeader, `headFast
      ensures ok && current == block && Stored() && Exact(headers, bodies, genesis, block.header.hash, lookup)
      ensures block.header.parent in headers
      ensures Valid() <==> Canonical(headers, genesis, canon, block.header.hash)
      ensures Canonical(headers, genesis, canon, block.header.hash) <==>
                block.header.number >= old(current).header.number
                  || !HeaderChains.OnIndex(headers, old(canon), block.header.parent)
    {
      hide Canonical, Exact, Sound, FromUniverse, ParentClosed, IsFork, Reorganised, InTxs;
      ok := true;
      ghost var fork := Fork(current, [], [block]);
      if block.header.parent != current.header.hash {
        ok, fork := Reorg(current, block);
      } else {
        Extension(headers, bodies, genesis, canon, lookup, current, block);
      }
      if ok {
        ghost var canon1, lookup1 := canon, lookup;
        WriteHeadBlock(block);
        ForkShape(headers, bodies, genesis, universe, old(current), block, fork);
        MovedIndex(headers, bodies, genesis, old(canon), canon1, canon, old(lookup), lookup1, old(current), block,
                   fork);
        MovedLookups(headers, bodies, genesis, universe, old(canon), canon1, old(lookup), lookup1, lookup, old(current),
                     block, fork);
      }
    }

    /** Stores a block and lets fork choice decide on the head; the last three arguments settle equal heights. */
    method InsertBlock(block: Block, currentPreserve: bool, blockPreserve: bool, coin: bool)
      returns (status: HeaderChains.WriteStatus, known: bool)
      requires Valid() && block.header.hash in universe && universe[block.header.hash] == block
      modifies this
      ensures Valid() && current.header.number >= old(current).header.number
      ensures known == HeaderChains.ParentKnown(old(headers), block.header)
      ensures known <==>
                block.header.parent in old(headers)
                && old(headers)[block.header.parent].number + 1 == block.header.number
      ensures known ==> ForkRules(Offer(block, currentPreserve, blockPreserve, coin), old(current), current)
      ensures !known ==>
                status == HeaderChains.NonStat && current == old(current) && headers == old(headers)
                  && bodies == old(bodies)
      ensures known ==>
                headers == old(headers)[block.header.hash := block.header]
                  && bodies == old(bodies)[block.header.hash := block.txs]
      ensures known && Chosen(block.header.number, old(current).header.number, currentPreserve, blockPreserve, coin) ==>
                status == HeaderChains.CanonStat && current == block
      ensures known && !Chosen(block.header.number, old(current).header.number, currentPreserve, blockPreserve,
                               coin) ==>
                status == HeaderChains.SideStat && current == old(current) && canon == old(canon)
                  && lookup == old(lookup)
    {
      hide Canonical, Exact, Sound, FromUniverse, ParentClosed;
      known := HeaderChains.ParentKnown(headers, block.header);
      status := HeaderChains.NonStat;
      if known {
        StoreGrows(headers, bodies, genesis, universe, canon, lookup, current, block);
        headers := headers[block.header.hash := block.header];
        bodies := bodies[block.header.hash := block.txs];
        var localTd, externTd := current.header.number + 1, block.header.number + 1;
        var reorg := externTd > localTd;
        if !reorg && externTd == localTd {
          if block.header.number < current.header.number {
            reorg := true;
          } else if block.header.number == current.header.number {
            reorg := !currentPreserve && (blockPreserve || coin);
          }
        }
        status := HeaderChains.SideStat;
        if reorg {
          var ok := MakeHead(block);
          status := if ok then HeaderChains.CanonStat else HeaderChains.NonStat;
        }
      }
    }

    /** Makes an already stored block the head. */
    method WriteKnownBlock(block: Block) returns (ok: bool)
      requires Valid() && IsStored(headers, bodies, block) && block.header.number > 0
      modifies `canon, `lookup, `current, `headHeader, `headFast
      ensures ok && current == block && block.header.parent in headers
      ensures Valid() <==>
                block.header.number >= old(current).header.number
                  || !HeaderChains.OnIndex(headers, old(canon), block.header.parent)
    {
      ok := MakeHead(block);
    }

    /** Imports blocks that are all known: those no higher than the head are skipped, and the others become the head one
        after the other. So no block is written that could leave the index wrong. */
    method ImportKnown(blocks: seq<Block>) returns (ignored: nat)
      requires Valid()
      requires forall i | 0 <= i < |blocks| :: IsStored(headers, bodies, blocks[i]) && blocks[i].header.number > 0
      requires forall i | 0 < i < |blocks| :: blocks[i].header.number == blocks[i - 1].header.number + 1
      modifies `canon, `lookup, `current, `headHeader, `headFast
      ensures Valid() && ignored <= |blocks|
      ensures forall i | 0 <= i < ignored :: blocks[i].header.number <= old(current).header.number
      ensures forall i | ignored <= i < |blocks| :: blocks[i].header.number > old(current).header.number
      ensures current == if ignored == |blocks| then old(current) else blocks[|blocks| - 1]
    {
      hide BlockChain.Valid, IsStored;
      var i := 0;
      while i < |blocks| && current.header.number + 1 >= blocks[i].header.number + 1
        invariant 0 <= i <= |blocks| && forall k | 0 <= k < i :: blocks[k].header.number <= current.header.number
      {
        i := i + 1;
      }
      ignored := i;
      while i < |blocks|
        invariant ignored <= i <= |blocks| && Valid()
        invariant current == if i == ignored then old(current) else blocks[i - 1]
        invariant forall k | ignored <= k < i :: blocks[k].header.number > old(current).header.number
        invariant i < |blocks| ==> blocks[i].header.number > current.header.number >= old(current).header.number
      {
        var _ := WriteKnownBlock(blocks[i]);
        i := i + 1;
      }
    }
  }

  /** Fork choice: the higher block, else the local one, else a coin. */
  predicate Chosen(number: nat, head: nat, currentPreserve: bool, blockPreserve: bool, coin: bool) {
    number > head || (number == head && !currentPreserve && (blockPreserve || coin))
  }

  datatype Offer = Offer(block: Block, currentPreserve: bool, blockPreserve: bool, coin: bool)

  /** What fork choice promises of a stored block, the head before it and the head after it. A higher block becomes the
      head and a lower one never does. At equal heights a preserved head stays; against another head a preserved block
      wins, and any other wins by the coin. */
  ghost predicate ForkRules(o: Offer, head: Block, next: Block) {
    && (next == head || next == o.block)
    && (o.block.header.number > head.header.number ==> next == o.block)
    && (o.block.header.number < head.header.number ==> next == head)
    && (o.block.header.number == head.header.number ==>
          && (o.currentPreserve ==> next == head)
          && (!o.currentPreserve && o.blockPreserve ==> next == o.block)
          && (!o.currentPreserve && !o.blockPreserve ==> next == if o.coin then o.block else head))
  }

  /** The headers stored after `offers`: each is kept if its parent is there by then. */
  ghost function StoreAfter(genesis: Header, offers: seq<Offer>): Store {
    if offers == [] then map[genesis.hash := genesis]
    else
      var s, b := StoreAfter(genesis, offers[..|offers| - 1]), offers[|offers| - 1].block;
      if HeaderChains.ParentKnown(s, b.header) then s[b.header.hash := b.header] else s
  }

  /** The head after `offers`: the last one that was stored and preferred to the head before it. */
  ghost function HeadAfter(genesis: Header, offers: seq<Offer>): Block {
    if offers == [] then Block(genesis, [])
    else
      var init, o := offers[..|offers| - 1], offers[|offers| - 1];
      var head := HeadAfter(genesis, init);
      if HeaderChains.ParentKnown(StoreAfter(genesis, init), o.block.header)
         && Chosen(o.block.header.number, head.header.number, o.currentPreserve, o.blockPreserve, o.coin)
      then o.block else head
  }

  lemma OfferMore(genesis: Header, offers: seq<Offer>, i: nat)
    requires i < |offers|
    ensures var s, b := StoreAfter(genesis, offers[..i]), offers[i].block;
            StoreAfter(genesis, offers[..i + 1])
            == if HeaderChains.ParentKnown(s, b.header) then s[b.header.hash := b.header] else s
    ensures var o, head := offers[i], HeadAfter(genesis, offers[..i]);
            HeadAfter(genesis, offers[..i + 1])
            == if HeaderChains.ParentKnown(StoreAfter(genesis, offers[..i]), o.block.header)
                  && Chosen(o.block.header.number, head.header.number, o.currentPreserve, o.blockPreserve, o.coin)
               then o.block else head
  {
    assert offers[..i + 1][..i] == offers[..i];
  }

  /** Offer `i` is stored exactly if its parent is stored one below it, and only then can it become the head, by the
      rules of fork choice. */
  ghost predicate OfferRules(genesis: Header, offers: seq<Offer>, i: nat)
    requires i < |offers|
  {
    var s, s' := StoreAfter(genesis, offers[..i]), StoreAfter(genesis, offers[..i + 1]);
    var head, next := HeadAfter(genesis, offers[..i]), HeadAfter(genesis, offers[..i + 1]);
    var h := offers[i].block.header;
    if h.parent in s && s[h.parent].number + 1 == h.number
    then s' == s[h.hash := h] && ForkRules(offers[i], head, next)
    else s' == s && next == head
  }

  lemma EveryOffer(genesis: Header, offers: seq<Offer>, i: nat)
    requires i < |offers|
    ensures OfferRules(genesis, offers, i)
  {
    hide StoreAfter, HeadAfter;
    OfferMore(genesis, offers, i);
  }

  /** Any run of insertions from genesis keeps the chain valid, and the head never falls. Store and head are those of
      the fork choice, offer by offer. */
  method Run(genesis: Header, ghost universe: imap<Hash, Block>, offers: seq<Offer>)
    returns (chain: BlockChain, heights: seq<nat>)
    requires Sound(universe) && genesis.number == 0 && genesis.hash in universe
    requires universe[genesis.hash] == Block(genesis, [])
    requires forall i | 0 <= i < |offers| ::
              offers[i].block.header.hash in universe && universe[offers[i].block.header.hash] == offers[i].block
    ensures fresh(chain) && chain.Valid() && chain.genesis == genesis && chain.universe == universe
    ensures chain.headers == StoreAfter(genesis, offers) && chain.current == HeadAfter(genesis, offers)
    ensures |heights| == |offers| + 1
    ensures forall i | 0 <= i < |heights| :: heights[i] == HeadAfter(genesis, offers[..i]).header.number
    ensures forall i, j | 0 <= i <= j < |heights| :: heights[i] <= heights[j]
    ensures forall i | 0 <= i < |offers| :: OfferRules(genesis, offers, i)
  {
    hide BlockChain.Valid, Sound, StoreAfter, HeadAfter, HeaderChains.ParentKnown, Chosen, OfferRules;
    forall i | 0 <= i < |offers|
      ensures OfferRules(genesis, offers, i)
    {
      EveryOffer(genesis, offers, i);
    }
    chain := new BlockChain(genesis, universe);
    heights := [chain.current.header.number];
    NoOffers(genesis);
    assert offers[..0] == [];
    for i := 0 to |offers|
      invariant fresh(chain) && chain.Valid() && chain.genesis == genesis && chain.universe == universe
      invariant chain.headers == StoreAfter(genesis, offers[..i]) && chain.current == HeadAfter(genesis, offers[..i])
      invariant |heights| == i + 1 && heights[i] == chain.current.header.number
      invariant forall k | 0 <= k < |heights| :: heights[k] == HeadAfter(genesis, offers[..k]).header.number
      invariant forall j, k | 0 <= j <= k < |heights| :: heights[j] <= heights[k]
    {
      OfferMore(genesis, offers, i);
      var _, _ := chain.InsertBlock(offers[i].block, offers[i].currentPreserve, offers[i].blockPreserve,
                                    offers[i].coin);
      heights := heights + [chain.current.header.number];
    }
    assert offers[..|offers|] == offers;
  }

  lemma NoOffers(genesis: Header)
    ensures StoreAfter(genesis, []) == map[genesis.hash := genesis] && HeadAfter(genesis, []) == Block(genesis, [])
  {
  }

  /** A run that leaves a wrong index: the parent of the head, written as a known block, leaves the head's entry above
      it. */
  method KnownParentOfHead() returns (chain: BlockChain)
    ensures fresh(chain) && chain.current == Block(Header(1, 0, 1), []) && !chain.Valid()
  {
    hide Canonical, Exact;
    var zero, one, two := Block(Header(0, 0, 0), []), Block(Header(1, 0, 1), []), Block(Header(2, 1, 2), []);
    ghost var universe := imap[0 := zero, 1 := one, 2 := two];
    chain := new BlockChain(zero.header, universe);
    assert chain.headers == map[0 := zero.header];
    var _, _ := chain.InsertBlock(one, false, false, false);
    var _, _ := chain.InsertBlock(two, false, false, false);
    assert chain.current == two && IsStored(chain.headers, chain.bodies, one);
    GenesisOnIndex(chain);
    var _ := chain.WriteKnownBlock(one);
  }

  lemma GenesisOnIndex(chain: BlockChain)
    requires chain.Valid()
    ensures chain.genesis.hash in chain.headers && HeaderChains.OnIndex(chain.headers, chain.canon, chain.genesis.hash)
  {
    HeaderChains.GenesisMarked(chain.headers, chain.genesis, chain.canon, chain.current.header.hash);
  }

  /** Storing a block changes nothing for the current chain. */
  lemma StoreGrows(headers: Store, bodies: Bodies, genesis: Header, u: imap<Hash, Block>, canon: Index, lookup: Lookups,
                   current: Block, block: Block)
    requires StoreOk(headers, bodies, genesis) && IsStored(headers, bodies, current) && FromUniverse(headers, bodies, u)
    requires Canonical(headers, genesis, canon, current.header.hash)
    requires Exact(headers, bodies, genesis, current.header.hash, lookup)
    requires block.header.hash in u && u[block.header.hash] == block && HeaderChains.ParentKnown(headers, block.header)
    ensures var headers', bodies' := headers[block.header.hash := block.header], bodies[block.header.hash := block.txs];
            && StoreOk(headers', bodies', genesis) && IsStored(headers', bodies', current)
            && IsStored(headers', bodies', block)
            && FromUniverse(headers', bodies', u)
            && Canonical(headers', genesis, canon, current.header.hash)
            && Exact(headers', bodies', genesis, current.header.hash, lookup)
  {
    hide Canonical, Exact, AncestorAt;
    HeaderChains.InsertHeader(headers, genesis, block.header);
    var headers', bodies' := headers[block.header.hash := block.header], bodies[block.header.hash := block.txs];
    assert [block.header][0] == block.header;
    HeaderChains.CanonicalGrows(headers, headers', genesis, canon, current.header.hash, [block.header]);
    ExactGrows(headers, bodies, headers', bodies', genesis, current.header.hash, lookup);
  }

  lemma ExactGrows(headers: Store, bodies: Bodies, headers': Store, bodies': Bodies, genesis: Header, head: Hash,
                   lookup: Lookups)
    requires StoreOk(headers, bodies, genesis) && StoreOk(headers', bodies', genesis) && head in headers
    requires forall h | h in headers :: h in headers' && headers'[h] == headers[h] && bodies'[h] == bodies[h]
    requires Exact(headers, bodies, genesis, head, lookup)
    ensures Exact(headers', bodies', genesis, head, lookup)
  {
    hide AncestorAt, ParentClosed;
    forall n: nat | n <= headers[head].number
      ensures AncestorAt(headers', genesis, head, n) == AncestorAt(headers, genesis, head, n)
      ensures bodies'[AncestorAt(headers', genesis, head, n)] == bodies[AncestorAt(headers, genesis, head, n)]
    {
      AncestorStable(headers, headers', genesis, head, n);
    }
  }

  /** Extending the head is a reorganisation with nothing to undo. */
  lemma Extension(headers: Store, bodies: Bodies, genesis: Header, canon: Index, lookup: Lookups, current: Block,
                  block: Block)
    requires StoreOk(headers, bodies, genesis) && IsStored(headers, bodies, current) && IsStored(headers, bodies, block)
    requires Canonical(headers, genesis, canon, current.header.hash)
    requires block.header.number > 0 && block.header.parent == current.header.hash
    ensures IsFork(headers, bodies, genesis, current, block, Fork(current, [], [block]))
    ensures Reorganised(canon, canon, lookup, lookup, Fork(current, [], [block]), current.header.number)
  {
    ParentIsAncestor(headers, genesis, block.header.hash);
    var fork := Fork(current, [], [block]);
    BranchLength(headers, bodies, genesis, block.header.hash, current.header.number);
    BranchIndex(headers, bodies, genesis, block.header.hash, current.header.number, block.header.number);
    SelfAncestor(headers, genesis, block.header.hash);
    SelfAncestor(headers, genesis, current.header.hash);
    assert BlockAt(headers, bodies, genesis, block.header.hash, block.header.number) == block;
    assert Branch(headers, bodies, genesis, block.header.hash, current.header.number) == [block];
    assert MarksFrom(fork.newChain, 1) == map[];
  }

  lemma MovedIndex(headers: Store, bodies: Bodies, genesis: Header, canon0: Index, canon1: Index, canon2: Index,
                   lookup0: Lookups, lookup1: Lookups, a: Block, b: Block, fork: Fork)
    requires StoreOk(headers, bodies, genesis) && IsStored(headers, bodies, a) && IsStored(headers, bodies, b)
    requires b.header.number > 0
    requires Canonical(headers, genesis, canon0, a.header.hash) && IsFork(headers, bodies, genesis, a, b, fork)
    requires |fork.newChain| == b.header.number - fork.common.header.number
    requires (fork.newChain != [] ==> fork.newChain[0] == b)
    requires Reorganised(canon0, canon1, lookup0, lookup1, fork,
                         if |fork.newChain| >= 2 then fork.newChain[1].header.number else a.header.number)
    requires canon2 == canon1[b.header.number := b.header.hash]
    ensures b.header.parent in headers
    ensures Canonical(headers, genesis, canon2, b.header.hash) <==>
              b.header.number >= a.header.number || !HeaderChains.OnIndex(headers, canon0, b.header.parent)
    ensures fork.newChain != [] ==> !(b.header.number in canon1 && canon1[b.header.number] == b.header.hash)
    ensures fork.newChain == [] && Canonical(headers, genesis, canon2, b.header.hash) ==> a == b
    ensures fork.newChain == [] ==> b.header.number in canon1 && canon1[b.header.number] == b.header.hash
  {
    var f := fork.common.header.number;
    forall n: nat
      ensures RelinkedAt(headers, genesis, canon0, canon2, b.header.hash, f, n)
    {
      hide Canonical, IsFork, ParentClosed, Reorganised, RelinkedAt;
      RelinkOne(headers, bodies, genesis, canon0, canon1, canon2, lookup0, lookup1, a, b, fork, n);
    }
    hide Canonical, RelinkedAt, IsFork, ParentClosed, Reorganised;
    WhereForked(headers, bodies, genesis, canon0, canon1, lookup0, lookup1, a, b, fork);
    RelinkedIsCanonical(headers, genesis, canon0, canon2, a.header.hash, b.header.hash, f);
    ShortBranch(headers, genesis, canon0, a.header.hash, b.header.hash, f);
  }

  lemma WhereForked(headers: Store, bodies: Bodies, genesis: Header, canon0: Index, canon1: Index, lookup0: Lookups,
                    lookup1: Lookups, a: Block, b: Block, fork: Fork)
    requires StoreOk(headers, bodies, genesis) && IsStored(headers, bodies, a) && IsStored(headers, bodies, b)
    requires b.header.number > 0
    requires Canonical(headers, genesis, canon0, a.header.hash) && IsFork(headers, bodies, genesis, a, b, fork)
    requires |fork.newChain| == b.header.number - fork.common.header.number
    requires (fork.newChain != [] ==> fork.newChain[0] == b)
    requires Reorganised(canon0, canon1, lookup0, lookup1, fork,
                         if |fork.newChain| >= 2 then fork.newChain[1].header.number else a.header.number)
    ensures Meet(headers, genesis, a.header.hash, b.header.hash, fork.common.header.number)
    ensures fork.newChain != [] ==> !(b.header.number in canon1 && canon1[b.header.number] == b.header.hash)
    ensures fork.newChain == [] ==>
              b.header.number in canon1 && canon1[b.header.number] == b.header.hash
                && b.header.number <= a.header.number
    ensures fork.newChain == [] && b.header.number == a.header.number ==> a == b
  {
    hide ParentClosed, Branch, AncestorAt;
    SelfAncestor(headers, genesis, a.header.hash);
    SelfAncestor(headers, genesis, b.header.hash);
    assert if b.header.number > (if |fork.newChain| >= 2 then fork.newChain[1].header.number else a.header.number)
        then b.header.number !in canon1 else SameAt(canon1, canon0 + MarksFrom(fork.newChain, 1), b.header.number);
  }

  lemma RelinkOne(headers: Store, bodies: Bodies, genesis: Header, canon0: Index, canon1: Index, canon2: Index,
                  lookup0: Lookups, lookup1: Lookups, a: Block, b: Block, fork: Fork, n: nat)
    requires StoreOk(headers, bodies, genesis) && IsStored(headers, bodies, a) && IsStored(headers, bodies, b)
    requires b.header.number > 0
    requires Canonical(headers, genesis, canon0, a.header.hash) && IsFork(headers, bodies, genesis, a, b, fork)
    requires |fork.newChain| == b.header.number - fork.common.header.number
    requires (fork.newChain != [] ==> fork.newChain[0] == b)
    requires Reorganised(canon0, canon1, lookup0, lookup1, fork,
                         if |fork.newChain| >= 2 then fork.newChain[1].header.number else a.header.number)
    requires canon2 == canon1[b.header.number := b.header.hash]
    ensures RelinkedAt(headers, genesis, canon0, canon2, b.header.hash, fork.common.header.number, n)
  {
    hide ParentClosed, Branch, AncestorAt;
    var f := fork.common.header.number;
    SelfAncestor(headers, genesis, b.header.hash);
    if f < n <= b.header.number {
      BranchIndex(headers, bodies, genesis, b.header.hash, f, n);
    }
    assert if n > (if |fork.newChain| >= 2 then fork.newChain[1].header.number else a.header.number)
        then n !in canon1 else SameAt(canon1, canon0 + MarksFrom(fork.newChain, 1), n);
  }

  lemma MovedLookups(headers: Store, bodies: Bodies, genesis: Header, u: imap<Hash, Block>, canon0: Index,
                     canon1: Index, lookup0: Lookups, lookup1: Lookups, lookup2: Lookups, a: Block, b: Block,
                     fork: Fork)
    requires StoreOk(headers, bodies, genesis) && IsStored(headers, bodies, a) && IsStored(headers, bodies, b)
    requires Sound(u) && FromUniverse(headers, bodies, u)
    requires Exact(headers, bodies, genesis, a.header.hash, lookup0) && IsFork(headers, bodies, genesis, a, b, fork)
    requires OnceIn(fork.newChain) && |fork.newChain| == b.header.number - fork.common.header.number
    requires (fork.newChain != [] ==> fork.newChain[0] == b)
    requires Reorganised(canon0, canon1, lookup0, lookup1, fork,
                         if |fork.newChain| >= 2 then fork.newChain[1].header.number else a.header.number)
    requires lookup2 == lookup1 + Entries(b.txs, b.header.number)
    ensures Exact(headers, bodies, genesis, b.header.hash, lookup2)
  {
    hide Exact, Sound, FromUniverse, ParentClosed, Branch, AncestorAt, Once, InTxs, Switched, Reorganised;
    UniverseOnce(headers, bodies, genesis, u);
    if fork.newChain == [] {
      SwitchedBack(headers, bodies, genesis, canon0, canon1, lookup0, lookup1, lookup2, a, b, fork);
    } else {
      SwitchedOver(canon0, canon1, lookup0, lookup1, lookup2, b, fork,
                   if |fork.newChain| >= 2 then fork.newChain[1].header.number else a.header.number);
    }
    SwitchedIsExact(headers, bodies, genesis, a.header.hash, b.header.hash, fork.common.header.number, lookup0,
                    lookup2);
  }

  lemma SwitchedOver(canon0: Index, canon1: Index, lookup0: Lookups, lookup1: Lookups, lookup2: Lookups, b: Block,
                     fork: Fork, top: nat)
    requires Reorganised(canon0, canon1, lookup0, lookup1, fork, top) && OnceIn(fork.newChain)
    requires fork.newChain != [] && fork.newChain[0] == b && lookup2 == lookup1 + Entries(b.txs, b.header.number)
    ensures Switched(lookup0, lookup2, fork.oldChain, fork.newChain)
  {
    hide InTxs, OnceIn;
    forall t { InTxsMore(fork.newChain, 0, t); }
    forall j: nat, t | j < |fork.newChain| && t in fork.newChain[j].txs
      ensures t in lookup2 && lookup2[t] == fork.newChain[j].header.number
    {
      if j > 0 { ApartAt(fork.newChain, 0, j, t); }
    }
  }

  lemma SwitchedBack(headers: Store, bodies: Bodies, genesis: Header, canon0: Index, canon1: Index, lookup0: Lookups,
                     lookup1: Lookups, lookup2: Lookups, a: Block, b: Block, fork: Fork)
    requires StoreOk(headers, bodies, genesis) && IsStored(headers, bodies, a) && IsStored(headers, bodies, b)
    requires Once(headers, bodies, genesis)
    requires Exact(headers, bodies, genesis, a.header.hash, lookup0) && IsFork(headers, bodies, genesis, a, b, fork)
    requires fork.newChain == [] && b.header.number == fork.common.header.number
    requires Reorganised(canon0, canon1, lookup0, lookup1, fork, a.header.number)
    requires lookup2 == lookup1 + Entries(b.txs, b.header.number)
    ensures Switched(lookup0, lookup2, fork.oldChain, fork.newChain)
  {
    hide ParentClosed, Branch, AncestorAt, Once, IsFork, Exact, InTxs, Reorganised, Switched;
    OwnTxs(headers, bodies, genesis, lookup0, a, b, fork);
    EnterAgain(canon0, canon1, lookup0, lookup1, lookup2, b, fork, a.header.number);
  }

  lemma EnterAgain(canon0: Index, canon1: Index, lookup0: Lookups, lookup1: Lookups, lookup2: Lookups, b: Block,
                   fork: Fork, top: nat)
    requires Reorganised(canon0, canon1, lookup0, lookup1, fork, top) && fork.newChain == []
    requires lookup2 == lookup1 + Entries(b.txs, b.header.number)
    requires forall t | t in b.txs :: !InTxs(fork.oldChain, 0, t) && t in lookup0 && lookup0[t] == b.header.number
    ensures Switched(lookup0, lookup2, fork.oldChain, fork.newChain)
  {
    hide InTxs;
    NoTxs(0);
    NoTxs(1);
  }

  lemma NoTxs(from: nat)
    ensures forall t :: !InTxs([], from, t)
  {
  }

  lemma OwnTxs(headers: Store, bodies: Bodies, genesis: Header, lookup0: Lookups, a: Block, b: Block, fork: Fork)
    requires StoreOk(headers, bodies, genesis) && IsStored(headers, bodies, a) && IsStored(headers, bodies, b)
    requires Once(headers, bodies, genesis)
    requires Exact(headers, bodies, genesis, a.header.hash, lookup0) && IsFork(headers, bodies, genesis, a, b, fork)
    requires b.header.number == fork.common.header.number
    ensures forall t | t in b.txs :: !InTxs(fork.oldChain, 0, t) && t in lookup0 && lookup0[t] == b.header.number
  {
    hide ParentClosed, Branch, AncestorAt, Once;
    var f := fork.common.header.number;
    SelfAncestor(headers, genesis, b.header.hash);
    forall t | t in b.txs
      ensures !InTxs(fork.oldChain, 0, t) && t in lookup0 && lookup0[t] == b.header.number
    {
      NotInBranch(headers, bodies, genesis, a.header.hash, f, f, t);
    }
  }

  lemma ForkShape(headers: Store, bodies: Bodies, genesis: Header, u: imap<Hash, Block>, a: Block, b: Block, fork: Fork)
    requires StoreOk(headers, bodies, genesis) && IsStored(headers, bodies, a) && IsStored(headers, bodies, b)
    requires Sound(u) && FromUniverse(headers, bodies, u) && IsFork(headers, bodies, genesis, a, b, fork)
    ensures Descending(fork.newChain) && OnceIn(fork.newChain)
    ensures |fork.newChain| == b.header.number - fork.common.header.number
    ensures fork.newChain != [] ==> fork.newChain[0] == b
  {
    hide AncestorAt, ParentClosed, Branch, Sound, FromUniverse;
    UniverseOnce(headers, bodies, genesis, u);
    var f := fork.common.header.number;
    BranchOnce(headers, bodies, genesis, b.header.hash, f);
    BranchLength(headers, bodies, genesis, b.header.hash, f);
    forall j: nat | j < |fork.newChain|
      ensures fork.newChain[j].header.number == b.header.number - j
    {
      BranchIndex(headers, bodies, genesis, b.header.hash, f, b.header.number - j);
    }
    if fork.newChain != [] {
      BranchIndex(headers, bodies, genesis, b.header.hash, f, b.header.number);
      SelfAncestor(headers, genesis, b.header.hash);
    }
  }

  lemma BranchLength(headers: Store, bodies: Bodies, genesis: Header, h: Hash, f: nat)
    requires StoreOk(headers, bodies, genesis) && h in headers && f <= headers[h].number
    ensures |Branch(headers, bodies, genesis, h, f)| == headers[h].number - f
  {
  }

  lemma MarkedBelow(headers: Store, bodies: Bodies, genesis: Header, canon0: Index, marked: Index, a: Block, b: Block,
                    fork: Fork)
    requires StoreOk(headers, bodies, genesis) && IsStored(headers, bodies, a) && IsStored(headers, bodies, b)
    requires Canonical(headers, genesis, canon0, a.header.hash) && IsFork(headers, bodies, genesis, a, b, fork)
    requires Descending(fork.newChain) && marked == canon0 + MarksFrom(fork.newChain, 1)
    ensures forall n | n in marked :: n < a.header.number + b.header.number + 1
  {
    hide ParentClosed, AncestorAt, Branch;
    BranchLength(headers, bodies, genesis, b.header.hash, fork.common.header.number);
    if fork.newChain != [] {
      BranchIndex(headers, bodies, genesis, b.header.hash, fork.common.header.number, b.header.number);
    }
  }

  /** Every entry above the last written block goes: the entries form one run. */
  lemma Trimmed(headers: Store, bodies: Bodies, genesis: Header, canon0: Index, marked: Index, canon1: Index, end: nat,
                a: Block, b: Block, fork: Fork)
    requires StoreOk(headers, bodies, genesis) && IsStored(headers, bodies, a) && IsStored(headers, bodies, b)
    requires Canonical(headers, genesis, canon0, a.header.hash) && IsFork(headers, bodies, genesis, a, b, fork)
    requires Descending(fork.newChain) && marked == canon0 + MarksFrom(fork.newChain, 1)
    requires var top := if |fork.newChain| >= 2 then fork.newChain[1].header.number else a.header.number;
             && top < end && end !in marked && (forall n: nat | top + 1 <= n < end :: n in marked)
             && canon1 == map n | n in marked && !(top + 1 <= n < end) :: marked[n]
    ensures var top := if |fork.newChain| >= 2 then fork.newChain[1].header.number else a.header.number;
            forall n: nat :: if n > top then n !in canon1 else SameAt(canon1, marked, n)
  {
  }

  lemma Dropped(lookup0: Lookups, entered: Lookups, lookup1: Lookups, fork: Fork, gone: seq<TxHash>)
    requires Entered(lookup0, entered, fork.newChain, 1)
    requires forall t :: t in gone <==> InTxs(fork.oldChain, 0, t) && !InTxs(fork.newChain, 1, t)
    requires lookup1 == map t | t in entered && t !in gone :: entered[t]
    ensures forall j: nat, t | 1 <= j < |fork.newChain| && t in fork.newChain[j].txs ::
              t in lookup1 && lookup1[t] == fork.newChain[j].header.number
    ensures forall t | !InTxs(fork.newChain, 1, t) && InTxs(fork.oldChain, 0, t) :: t !in lookup1
    ensures forall t | !InTxs(fork.newChain, 1, t) && !InTxs(fork.oldChain, 0, t) :: SameAt(lookup1, lookup0, t)
  {
  }

  lemma NothingYet(lookup: Lookups, chain: seq<Block>)
    ensures forall from: nat | from >= |chain| :: Entered(lookup, lookup, chain, from)
    ensures forall from: nat, t | from >= |chain| :: !InTxs(chain, from, t)
  {
  }
}
