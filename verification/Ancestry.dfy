/** Stored headers as a tree rooted at genesis, and the canonical number-to-hash index over it. */
module Ancestry {
  type Hash = nat

  datatype Header = Header(hash: Hash, parent: Hash, number: nat)

  type Store = map<Hash, Header>
  type Index = map<nat, Hash>

  /** Every stored header is stored under its hash, and has its parent stored one number below, down to genesis. */
  ghost predicate ParentClosed(s: Store, genesis: Header) {
    && genesis.hash in s && s[genesis.hash] == genesis && genesis.number == 0
    && forall h | h in s :: HeaderOk(s, genesis, h)
  }

  ghost predicate HeaderOk(s: Store, genesis: Header, h: Hash)
    requires h in s
  {
    && s[h].hash == h
    && (s[h].number == 0 ==> h == genesis.hash)
    && (s[h].number > 0 ==> s[h].parent in s && s[s[h].parent].number == s[h].number - 1)
  }

  /** The ancestor of `h` at height `n`: the plain parent walk. */
  ghost function AncestorAt(s: Store, genesis: Header, h: Hash, n: nat): (r: Hash)
    requires ParentClosed(s, genesis) && h in s && n <= s[h].number
    ensures r in s && s[r].number == n
    decreases s[h].number
  {
    assert HeaderOk(s, genesis, h);
    if s[h].number == n then h else AncestorAt(s, genesis, s[h].parent, n)
  }

  /** The index holds the parent walk from `head` and nothing above it. */
  ghost predicate Canonical(s: Store, genesis: Header, index: Index, head: Hash) {
    && ParentClosed(s, genesis) && head in s
    && (forall n | n in index :: n <= s[head].number)
    && (forall n: nat | n <= s[head].number :: n in index && index[n] == AncestorAt(s, genesis, head, n))
  }

  /** Two maps agree on one key. */
  ghost predicate SameAt<V>(a: map<nat, V>, b: map<nat, V>, n: nat) {
    (n in a <==> n in b) && (n in a ==> a[n] == b[n])
  }

  lemma {:induction false} AncestorOfAncestor(s: Store, genesis: Header, h: Hash, m: nat, n: nat)
    requires ParentClosed(s, genesis) && h in s && n <= m <= s[h].number
    ensures AncestorAt(s, genesis, AncestorAt(s, genesis, h, m), n) == AncestorAt(s, genesis, h, n)
    decreases s[h].number
  {
    if s[h].number > m {
      assert HeaderOk(s, genesis, h);
      AncestorOfAncestor(s, genesis, s[h].parent, m, n);
    }
  }

  /** Adding headers does not change the ancestors of the old ones. */
  lemma {:induction false} AncestorStable(s: Store, s': Store, genesis: Header, h: Hash, n: nat)
    requires ParentClosed(s, genesis) && ParentClosed(s', genesis) && h in s && n <= s[h].number
    requires forall x | x in s :: x in s' && s'[x] == s[x]
    ensures AncestorAt(s', genesis, h, n) == AncestorAt(s, genesis, h, n)
    decreases s[h].number
  {
    if s[h].number > n {
      assert HeaderOk(s, genesis, h);
      AncestorStable(s, s', genesis, s[h].parent, n);
    }
  }

  /** A canonical header has canonical ancestors. */
  lemma CanonicalBelow(s: Store, genesis: Header, index: Index, head: Hash, h: Hash, n: nat)
    requires Canonical(s, genesis, index, head) && h in s && n <= s[h].number
    requires s[h].number in index && index[s[h].number] == h
    ensures n in index && index[n] == AncestorAt(s, genesis, h, n)
  {
    assert s[h].number <= s[head].number;
    AncestorOfAncestor(s, genesis, head, s[h].number, n);
  }

  lemma ParentIsAncestor(s: Store, genesis: Header, h: Hash)
    requires ParentClosed(s, genesis) && h in s && s[h].number > 0
    ensures s[h].parent in s && s[s[h].parent].number == s[h].number - 1
    ensures AncestorAt(s, genesis, h, s[h].number - 1) == s[h].parent
  {
    assert HeaderOk(s, genesis, h);
  }

  lemma SelfAncestor(s: Store, genesis: Header, h: Hash)
    requires ParentClosed(s, genesis) && h in s
    ensures AncestorAt(s, genesis, h, s[h].number) == h
  {
  }
}
