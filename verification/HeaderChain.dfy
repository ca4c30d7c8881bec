/** HeaderChain: header storage, the canonical index and the current header. */
module HeaderChains {
  import opened Options
  import opened Ancestry

  datatype WriteStatus = NonStat | CanonStat | SideStat

  datatype WriteResult = UnknownAncestor | Written(status: WriteStatus, ignored: nat, imported: nat)

  /** Each header is the parent of the next. */
  ghost predicate Linked(hs: seq<Header>) {
    forall i | 0 <= i < |hs| - 1 :: hs[i + 1].parent == hs[i].hash && hs[i + 1].number == hs[i].number + 1
  }

  /** A hash determines its header. */
  ghost predicate Identified(s: Store, hs: seq<Header>) {
    && (forall i | 0 <= i < |hs| && hs[i].hash in s :: s[hs[i].hash] == hs[i])
    && (forall i, j | 0 <= i < j < |hs| && hs[i].hash == hs[j].hash :: hs[i] == hs[j])
  }

  predicate ParentKnown(s: Store, h: Header) {
    h.number > 0 && h.parent in s && s[h.parent].number == h.number - 1
  }

  function Insert(s: Store, hs: seq<Header>): Store {
    if hs == [] then s else Insert(s, hs[..|hs| - 1])[hs[|hs| - 1].hash := hs[|hs| - 1]]
  }

  function Mark(index: Index, hs: seq<Header>): Index {
    if hs == [] then index else Mark(index, hs[..|hs| - 1])[hs[|hs| - 1].number := hs[|hs| - 1].hash]
  }

  /** How many leading headers are already stored. */
  function KnownPrefix(s: Store, hs: seq<Header>): (k: nat)
    ensures k <= |hs| && (forall i | 0 <= i < k :: hs[i].hash in s) && (k < |hs| ==> hs[k].hash !in s)
  {
    if hs == [] || hs[0].hash !in s then 0 else 1 + KnownPrefix(s, hs[1..])
  }

  /** Fork choice on heights, the total difficulty being the height plus one; `coin` settles ties. */
  predicate Reorgs(last: nat, head: nat, coin: bool) {
    last > head || (last == head && coin)
  }

  lemma LinkedNumbers(hs: seq<Header>, i: nat)
    requires Linked(hs) && i < |hs|
    ensures hs[i].number == hs[0].number + i
  {
    if i > 0 { LinkedNumbers(hs, i - 1); }
  }

  /** `t` is `s` with the headers of `hs` added. */
  ghost predicate Extends(s: Store, t: Store, hs: seq<Header>) {
    && (forall x | x in s :: x in t && t[x] == s[x])
    && (forall i | 0 <= i < |hs| :: hs[i].hash in t && t[hs[i].hash] == hs[i])
    && (forall x | x in t && x !in s :: t[x] in hs)
  }

  lemma {:induction false} InsertKeeps(s: Store, genesis: Header, hs: seq<Header>, k: nat)
    requires ParentClosed(s, genesis) && Linked(hs) && Identified(s, hs) && k <= |hs|
    requires hs == [] || ParentKnown(s, hs[0])
    ensures ParentClosed(Insert(s, hs[..k]), genesis) && Identified(Insert(s, hs[..k]), hs)
    ensures Extends(s, Insert(s, hs[..k]), hs[..k])
    decreases k
  {
    hide ParentClosed, ParentKnown, Linked, Extends, Identified;
    if k == 0 {
      assert hs[..k] == [];
      NothingExtends(s);
    } else {
      InsertKeeps(s, genesis, hs, k - 1);
      var t := Insert(s, hs[..k - 1]);
      NextParentKnown(s, t, hs, k - 1);
      if hs[k - 1].hash in t { SameHeader(t, hs, k - 1); }
      InsertHeader(t, genesis, hs[k - 1]);
      ExtendMore(s, t, hs, k - 1);
      assert hs[..k][..k - 1] == hs[..k - 1];
    }
  }

  lemma NothingExtends(s: Store)
    ensures Extends(s, s, [])
  {
  }

  lemma SameHeader(t: Store, hs: seq<Header>, k: nat)
    requires Identified(t, hs) && k < |hs| && hs[k].hash in t
    ensures t[hs[k].hash] == hs[k]
  {
  }

  lemma NextParentKnown(s: Store, t: Store, hs: seq<Header>, k: nat)
    requires Linked(hs) && k < |hs| && ParentKnown(s, hs[0]) && Extends(s, t, hs[..k])
    ensures ParentKnown(t, hs[k])
  {
    LinkedNumbers(hs, k);
    if k > 0 {
      assert hs[..k][k - 1] == hs[k - 1] && hs[k - 1 + 1].parent == hs[k - 1].hash;
    }
  }

  lemma InsertHeader(t: Store, genesis: Header, h: Header)
    requires ParentClosed(t, genesis) && ParentKnown(t, h) && (h.hash in t ==> t[h.hash] == h)
    ensures ParentClosed(t[h.hash := h], genesis)
  {
    var t' := t[h.hash := h];
    forall x | x in t'
      ensures HeaderOk(t', genesis, x)
    {
      if x != h.hash { assert HeaderOk(t, genesis, x); }
    }
  }

  lemma ExtendMore(s: Store, t: Store, hs: seq<Header>, k: nat)
    requires k < |hs| && Extends(s, t, hs[..k]) && Identified(t, hs)
    ensures Extends(s, t[hs[k].hash := hs[k]], hs[..k + 1]) && Identified(t[hs[k].hash := hs[k]], hs)
  {
    var t' := t[hs[k].hash := hs[k]];
    var upto := hs[..k + 1];
    assert upto[k] == hs[k];
    forall i | 0 <= i < |upto|
      ensures upto[i].hash in t' && t'[upto[i].hash] == upto[i]
    {
      if i < k { assert hs[..k][i] == hs[i]; }
    }
    forall x | x in t' && x !in s
      ensures t'[x] in hs[..k + 1]
    {
      if x != hs[k].hash {
        var i :| 0 <= i < k && hs[..k][i] == t[x];
        assert hs[..k + 1][i] == t[x];
      }
    }
  }

  /** Marking a linked run of headers sets their numbers and nothing else. */
  lemma {:induction false} MarkAt(index: Index, hs: seq<Header>, n: nat)
    requires Linked(hs) && hs != []
    ensures n in Mark(index, hs) <==> n in index || hs[0].number <= n < hs[0].number + |hs|
    ensures hs[0].number <= n < hs[0].number + |hs| ==> Mark(index, hs)[n] == hs[n - hs[0].number].hash
    ensures n in index && !(hs[0].number <= n < hs[0].number + |hs|) ==> Mark(index, hs)[n] == index[n]
    decreases |hs|
  {
    var k := |hs| - 1;
    LinkedNumbers(hs, k);
    if k > 0 {
      MarkAt(index, hs[..k], n);
    } else {
      assert hs[..k] == [];
    }
  }

  lemma {:induction false} MarkInTwo(index: Index, hs: seq<Header>, k: nat, m: nat)
    requires k <= m <= |hs|
    ensures Mark(Mark(index, hs[..k]), hs[k..m]) == Mark(index, hs[..m])
    decreases m
  {
    if k == m {
      assert hs[k..m] == [];
    } else {
      MarkInTwo(index, hs, k, m - 1);
      assert hs[k..m][..m - 1 - k] == hs[k..m - 1];
      assert hs[..m][..m - 1] == hs[..m - 1];
    }
  }

  /** On a linked run, the ancestors of the last header are the run, then the ancestors of its parent. */
  lemma {:induction false} AncestorInRun(s: Store, genesis: Header, hs: seq<Header>, k: nat, n: nat)
    requires ParentClosed(s, genesis) && Linked(hs) && k < |hs| && hs[0].number > 0
    requires forall i | 0 <= i < |hs| :: hs[i].hash in s && s[hs[i].hash] == hs[i]
    requires n <= hs[k].number == hs[0].number + k
    ensures hs[0].parent in s && s[hs[0].parent].number == hs[0].number - 1
    ensures AncestorAt(s, genesis, hs[k].hash, n) ==
              if n >= hs[0].number then hs[n - hs[0].number].hash else AncestorAt(s, genesis, hs[0].parent, n)
    decreases k
  {
    LinkedNumbers(hs, k);
    assert HeaderOk(s, genesis, hs[0].hash);
    assert HeaderOk(s, genesis, hs[k].hash);
    if k > 0 {
      assert hs[k - 1 + 1].parent == hs[k - 1].hash;
      if n < hs[k].number {
        LinkedNumbers(hs, k - 1);
        AncestorInRun(s, genesis, hs, k - 1, n);
      }
    }
  }

  /** `current` is stored and nothing is stored above it. */
  ghost predicate Highest(s: Store, current: Header) {
    && current.hash in s && s[current.hash] == current
    && forall h | h in s :: s[h].number <= current.number
  }

  lemma HighestAfter(s: Store, t: Store, headers: seq<Header>, current: Header, coin: bool)
    requires Highest(s, current) && Extends(s, t, headers) && Linked(headers) && headers != []
    ensures var last := headers[|headers| - 1];
            Highest(t, if Reorgs(last.number, current.number, coin) then last else current)
    ensures current.hash in t && t[current.hash] == current
  {
    LinkedNumbers(headers, |headers| - 1);
    forall x | x in t && x !in s
      ensures t[x].number <= headers[|headers| - 1].number
    {
      var i :| 0 <= i < |headers| && headers[i] == t[x];
      LinkedNumbers(headers, i);
    }
  }

  /** The index stays that of the old head while headers are added. */
  lemma CanonicalGrows(s: Store, t: Store, genesis: Header, index: Index, head: Hash, headers: seq<Header>)
    requires Canonical(s, genesis, index, head) && ParentClosed(t, genesis) && Extends(s, t, headers)
    ensures Canonical(t, genesis, index, head) && t[head] == s[head]
  {
    forall n: nat | n <= s[head].number
      ensures AncestorAt(t, genesis, head, n) == AncestorAt(s, genesis, head, n)
    {
      AncestorStable(s, t, genesis, head, n);
    }
  }

  /** `next` agrees with the parent walk from `h` on every number up to that of `h`, and with `index` above. */
  ghost predicate Rejoined(s: Store, genesis: Header, index: Index, next: Index, h: Hash)
    requires ParentClosed(s, genesis) && h in s
  {
    && (forall n: nat | n <= s[h].number :: n in next && next[n] == AncestorAt(s, genesis, h, n))
    && (forall n: nat | n > s[h].number :: SameAt(next, index, n))
  }

  class HeaderChain {
    const genesis: Header
    var store: Store
    var canon: Index
    var current: Header

    /** Headers are parent-closed down to genesis and none is above the current one. */
    ghost predicate StoreOk()
      reads this
    {
      ParentClosed(store, genesis) && Highest(store, current)
    }

    ghost predicate Valid()
      reads this
    {
      StoreOk() && Canonical(store, genesis, canon, current.hash)
    }

    constructor (genesis: Header)
      requires genesis.number == 0
      ensures Valid() && this.genesis == genesis && current == genesis && store == map[genesis.hash := genesis]
    {
      this.genesis := genesis;
      store := map[genesis.hash := genesis];
      canon := map[0 := genesis.hash];
      current := genesis;
    }

    /** Imports a linked run of headers; `coin` is the toss for runs as high as the current header. */
    method WriteHeaders(headers: seq<Header>, coin: bool) returns (result: WriteResult)
      requires Valid() && Linked(headers) && Identified(store, headers)
      modifies this
      ensures StoreOk()
      ensures headers == [] ==> result == Written(NonStat, 0, 0)
      ensures headers != [] ==> (result == UnknownAncestor <==> !ParentKnown(old(store), headers[0]))
      ensures result == UnknownAncestor <==>
                && headers != []
                && !(headers[0].parent in old(store) && old(store)[headers[0].parent].number + 1 == headers[0].number)
      ensures result.Written? && headers != [] ==>
                var last, head := headers[|headers| - 1], old(current);
                && (last.number > head.number ==> current == last)
                && (last.number < head.number ==> current == head)
                && (last.number == head.number ==> current == if coin then last else head)
      ensures headers == [] || !ParentKnown(old(store), headers[0]) ==>
                store == old(store) && canon == old(canon) && current == old(current)
      ensures headers != [] && ParentKnown(old(store), headers[0]) ==>
                var last, known := headers[|headers| - 1], KnownPrefix(old(store), headers);
                && Extends(old(store), store, headers)
                && current == (if Reorgs(last.number, old(current).number, coin) then last else old(current))
                && result.Written? && result.ignored == known && result.imported == |headers| - known
                && result.status == (if known == |headers| then NonStat
                                     else if Reorgs(last.number, old(current).number,
                                                    coin) then CanonStat else SideStat)
      ensures Canonical(store, genesis, canon, current.hash) <==>
                || headers == [] || !ParentKnown(old(store), headers[0]) || KnownPrefix(old(store), headers) < |headers|
                || headers[|headers| - 1] == old(current)
                || !Reorgs(headers[|headers| - 1].number, old(current).number, coin)
    {
      hide Canonical, ParentClosed, Extends, Identified, KnownPrefix, Linked, Highest;
      if |headers| == 0 {
        return Written(NonStat, 0, 0);
      }
      if !ParentKnown(store, headers[0]) {
        return UnknownAncestor;
      }
      var inserted, first := CollectNew(store, headers);
      InsertNew(store, genesis, headers, KnownPrefix(store, headers));
      store := Insert(store, inserted);
      CanonicalGrows(old(store), store, genesis, canon, current.hash, headers);
      HighestAfter(old(store), store, headers, current, coin);
      var last := headers[|headers| - 1];
      var newTd, localTd := last.number + 1, current.number + 1;
      var reorg := newTd > localTd;
      if !reorg && newTd == localTd {
        if last.number < current.number {
          reorg := true;
        } else if last.number == current.number {
          reorg := coin;
        }
      }
      if reorg {
        NoneKnownAbove(old(store), old(current), headers);
        AllStored(old(store), store, headers);
        canon := NewIndex(store, genesis, canon, current, headers, inserted, first);
        current := last;
      }
      var status := if |inserted| == 0 then NonStat else if reorg then CanonStat else SideStat;
      return Written(status, |headers| - |inserted|, |inserted|);
    }

    /** Rewinds the chain to height `head`, deleting every header above it, side forks included. Deletions are
        collected and applied at the end. */
    method SetHead(head: nat)
      requires Valid()
      modifies this
      ensures Valid()
      ensures current.hash
              == AncestorAt(old(store), genesis, old(current).hash,
                            if head < old(current).number then head else old(current).number)
      ensures store == UpTo(old(store), head)
      ensures forall h :: h in store <==> h in old(store) && old(store)[h].number <= head
      ensures forall h | h in store :: store[h] == old(store)[h]
    {
      hide Canonical, ParentClosed, Highest, UpTo;
      var headers: set<(Hash, nat)>, marks: set<nat> := {}, {};
      var origin := true;
      HeadIsAncestor(store, genesis, canon, current);
      while current.number > head
        invariant store == old(store) && canon == old(canon) && ParentClosed(store, genesis)
        invariant current.number >= (if head < old(current).number then head else old(current).number)
        invariant current.number <= old(current).number && old(current).hash in store
        invariant store[old(current).hash] == old(current)
        invariant current.hash == AncestorAt(store, genesis, old(current).hash, current.number)
        invariant current.hash in store && store[current.hash] == current
        invariant origin ==> current == old(current)
        invariant DeletesAbove(store, headers, current.number) && MarksAbove(canon, marks, current.number)
        decreases current.number
      {
        var hdr := current;
        ParentStep(store, genesis, old(current), hdr);
        var parent := if hdr.parent in store then store[hdr.parent] else genesis;
        var nums: seq<nat> := [];
        current := parent;
        if origin {
          nums := LevelsAbove(store, hdr.number, old(current).number);
          origin := false;
        }
        headers, marks := DeleteLevels(store, canon, headers, marks, hdr, nums + [hdr.number]);
      }
      store := map h | h in store && (h, store[h].number) !in headers :: store[h];
      canon := map n | n in canon && n !in marks :: canon[n];
      Rewound(old(store), store, genesis, old(canon), canon, old(current), current, head, headers, marks);
      UpToMeans(old(store), head);
    }

    /** The `ancestor`-th ancestor of a block, by plain parent steps until the walk meets the canonical index.
        `allowance` bounds the plain steps. */
    method GetAncestor(hash: Hash, number: nat, ancestor: nat, allowance: nat)
      returns (r: Option<(Hash, nat)>, left: nat)
      requires Valid()
      ensures ancestor > number ==> r == None && left == allowance
      ensures ancestor == 0 ==> r == Some((hash, number)) && left == allowance
      ensures 0 < ancestor <= number && !IsStored(store, hash, number) ==>
                r == None && left == if ancestor == 1 || allowance == 0 then allowance else allowance - 1
      ensures 0 < ancestor <= number && IsStored(store, hash, number) ==>
                var steps := if ancestor == 1 then 0 else PlainSteps(store, genesis, canon, hash, ancestor);
                if steps <= allowance
                then r == Some((AncestorAt(store, genesis, hash, number - ancestor),
                                number - ancestor)) && left == allowance - steps
                else r == None && left == 0
    {
      left := allowance;
      if ancestor > number {
        return None, left;
      }
      if ancestor == 1 {
        if IsStored(store, hash, number) {
          ParentIsAncestor(store, genesis, hash);
          return Some((store[hash].parent, number - 1)), left;
        }
        return None, left;
      }
      r, left := Climb(store, genesis, canon, current.hash, hash, number, ancestor, allowance);
    }
  }

  predicate IsStored(s: Store, hash: Hash, number: nat) {
    hash in s && s[hash].number == number
  }

  /** How many parent steps lead from `h` to the index, at most `limit`. */
  ghost function PlainSteps(s: Store, genesis: Header, index: Index, h: Hash, limit: nat): (k: nat)
    requires ParentClosed(s, genesis) && h in s && limit <= s[h].number
    ensures k <= limit
    decreases limit
  {
    if limit == 0 || OnIndex(s, index, h) then 0
    else
      assert HeaderOk(s, genesis, h);
      1 + PlainSteps(s, genesis, index, s[h].parent, limit - 1)
  }

  /** The plain steps stop at the first ancestor on the index. */
  lemma {:induction false} StepsToIndex(s: Store, genesis: Header, index: Index, h: Hash, limit: nat, n: nat)
    requires ParentClosed(s, genesis) && h in s && limit <= s[h].number
    requires s[h].number - PlainSteps(s, genesis, index, h, limit) <= n <= s[h].number
    ensures n > s[h].number - PlainSteps(s, genesis, index, h, limit) ==>
              !OnIndex(s, index, AncestorAt(s, genesis, h, n))
    ensures n == s[h].number - PlainSteps(s, genesis, index, h, limit) && n > s[h].number - limit ==>
              OnIndex(s, index, AncestorAt(s, genesis, h, n))
    decreases limit
  {
    assert HeaderOk(s, genesis, h);
    if limit > 0 && !OnIndex(s, index, h) && n < s[h].number {
      StepsToIndex(s, genesis, index, s[h].parent, limit - 1, n);
    }
  }

  predicate OnIndex(s: Store, index: Index, h: Hash)
    requires h in s
  {
    s[h].number in index && index[s[h].number] == h
  }

  method Climb(s: Store, genesis: Header, canon: Index, ghost head: Hash, hash0: Hash, number0: nat, ancestor0: nat,
               allowance: nat)
    returns (r: Option<(Hash, nat)>, left: nat)
    requires Canonical(s, genesis, canon, head) && ancestor0 <= number0
    ensures ancestor0 == 0 ==> r == Some((hash0, number0)) && left == allowance
    ensures 0 < ancestor0 && !IsStored(s, hash0, number0) ==>
              r == None && left == if allowance == 0 then 0 else allowance - 1
    ensures IsStored(s, hash0, number0) ==>
              var steps := PlainSteps(s, genesis, canon, hash0, ancestor0);
              if steps <= allowance
              then r == Some((AncestorAt(s, genesis, hash0, number0 - ancestor0),
                              number0 - ancestor0)) && left == allowance - steps
              else r == None && left == 0
  {
    hide Canonical, ParentClosed, AncestorAt, PlainSteps;
    ClosedAt(s, genesis, canon, head);
    if IsStored(s, hash0, number0) { SelfAncestor(s, genesis, hash0); }
    left := allowance;
    var hash, number: nat, ancestor: nat := hash0, number0, ancestor0;
    while ancestor != 0
      invariant ancestor <= number && number - ancestor == number0 - ancestor0 && ancestor <= ancestor0
      invariant !IsStored(s, hash0, number0) ==>
                hash == hash0 && number == number0 && left == allowance && ancestor == ancestor0
      invariant IsStored(s, hash0, number0) ==>
                  && IsStored(s, hash, number) && left == allowance - (ancestor0 - ancestor)
                  && hash == AncestorAt(s, genesis, hash0, number)
                  && PlainSteps(s, genesis, canon, hash0, ancestor0) == ancestor0 - ancestor
                     + PlainSteps(s, genesis, canon, hash, ancestor)
      decreases ancestor
    {
      if number in canon && canon[number] == hash {
        MarkedIsStored(s, genesis, canon, head, number);
        NextStep(s, genesis, canon, hash, ancestor);
        CanonicalBelow(s, genesis, canon, head, hash, number - ancestor);
        AncestorOfAncestor(s, genesis, hash0, number, number - ancestor);
        return Some((canon[number - ancestor], number - ancestor)), left;
      }
      if IsStored(s, hash, number) { NextStep(s, genesis, canon, hash, ancestor); }
      if left == 0 {
        return None, 0;
      }
      left, ancestor := left - 1, ancestor - 1;
      if !IsStored(s, hash, number) {
        return None, left;
      }
      ParentIsAncestor(s, genesis, hash);
      AncestorOfAncestor(s, genesis, hash0, number, number - 1);
      hash, number := s[hash].parent, number - 1;
    }
    if IsStored(s, hash, number) { NextStep(s, genesis, canon, hash, 0); }
    return Some((hash, number)), left;
  }

  lemma NextStep(s: Store, genesis: Header, index: Index, h: Hash, limit: nat)
    requires ParentClosed(s, genesis) && h in s && limit <= s[h].number
    ensures limit == 0 || OnIndex(s, index, h) ==> PlainSteps(s, genesis, index, h, limit) == 0
    ensures limit > 0 && !OnIndex(s, index, h) ==>
              s[h].parent in s && s[s[h].parent].number == s[h].number - 1
              && PlainSteps(s, genesis, index, h, limit) == 1 + PlainSteps(s, genesis, index, s[h].parent, limit - 1)
  {
    assert HeaderOk(s, genesis, h);
  }

  lemma MarkedIsStored(s: Store, genesis: Header, index: Index, head: Hash, n: nat)
    requires Canonical(s, genesis, index, head) && n in index
    ensures IsStored(s, index[n], n)
  {
  }

  lemma UpToMeans(s: Store, n: nat)
    ensures forall h :: h in UpTo(s, n) <==> h in s && s[h].number <= n
    ensures forall h | h in UpTo(s, n) :: UpTo(s, n)[h] == s[h]
  {
  }

  function UpTo(s: Store, n: nat): Store {
    map h | h in s && s[h].number <= n :: s[h]
  }

  lemma HeadIsAncestor(s: Store, genesis: Header, index: Index, current: Header)
    requires Canonical(s, genesis, index, current.hash) && Highest(s, current)
    ensures ParentClosed(s, genesis) && current.hash in s && s[current.hash] == current
    ensures current.hash == AncestorAt(s, genesis, current.hash, current.number)
    ensures DeletesAbove(s, {}, current.number) && MarksAbove(index, {}, current.number)
  {
  }

  ghost predicate DeletesAbove(s: Store, deleted: set<(Hash, nat)>, n: nat) {
    forall h | h in s :: (h, s[h].number) in deleted <==> s[h].number > n
  }

  ghost predicate MarksAbove(index: Index, deleted: set<nat>, n: nat) {
    forall m | m in index :: m in deleted <==> m > n
  }

  lemma ParentStep(s: Store, genesis: Header, head: Header, h: Header)
    requires ParentClosed(s, genesis) && head.hash in s && s[head.hash] == head && h.hash in s && s[h.hash] == h
    requires 0 < h.number <= head.number && h.hash == AncestorAt(s, genesis, head.hash, h.number)
    ensures h.parent in s && s[h.parent].number == h.number - 1 && s[h.parent].hash == h.parent
    ensures h.parent == AncestorAt(s, genesis, head.hash, h.number - 1)
  {
    ParentIsAncestor(s, genesis, h.hash);
    AncestorOfAncestor(s, genesis, head.hash, h.number, h.number - 1);
    assert HeaderOk(s, genesis, h.parent);
  }

  function AllHashes(s: Store, n: nat): set<Hash> {
    set h | h in s && s[h].number == n
  }

  /** The unbroken run of populated levels above `num`, highest first. */
  method LevelsAbove(s: Store, num: nat, ghost bound: nat) returns (nums: seq<nat>)
    requires forall h | h in s :: s[h].number <= bound
    ensures forall n | n in nums :: n > num
  {
    nums := [];
    var n := num + 1;
    while AllHashes(s, n) != {}
      invariant n > num && forall m | m in nums :: m > num
      decreases bound + 1 - n
    {
      assert exists h :: h in AllHashes(s, n);
      nums := [n] + nums;
      n := n + 1;
    }
  }

  /** Adds the headers and the index entries of the levels `nums` to the deletions. */
  method DeleteLevels(s: Store, index: Index, headers0: set<(Hash, nat)>, marks0: set<nat>, hdr: Header, nums: seq<nat>)
    returns (headers: set<(Hash, nat)>, marks: set<nat>)
    requires hdr.hash in s && s[hdr.hash] == hdr && hdr.number > 0
    requires DeletesAbove(s, headers0, hdr.number) && MarksAbove(index, marks0, hdr.number)
    requires hdr.number in nums && forall n | n in nums :: n >= hdr.number
    ensures DeletesAbove(s, headers, hdr.number - 1) && MarksAbove(index, marks, hdr.number - 1)
  {
    headers, marks := headers0, marks0;
    for i := 0 to |nums|
      invariant forall h | h in s :: (h, s[h].number) in headers <==>
                s[h].number > hdr.number || s[h].number in nums[..i]
      invariant forall m | m in index :: m in marks <==> m > hdr.number || m in nums[..i]
    {
      var hashes := AllHashes(s, nums[i]);
      if hashes == {} {
        hashes := {hdr.hash};
      }
      assert nums[..i + 1] == nums[..i] + [nums[i]];
      assert nums[i] == hdr.number ==> hdr.hash in AllHashes(s, nums[i]);
      headers := headers + set h | h in hashes :: (h, nums[i]);
      marks := marks + {nums[i]};
    }
    assert nums[..|nums|] == nums;
  }

  /** What is left after the deletions is the chain of the new head. */
  lemma Rewound(s: Store, t: Store, genesis: Header, index: Index, index': Index, head0: Header, head: Header, n: nat,
                headers: set<(Hash, nat)>, marks: set<nat>)
    requires Canonical(s, genesis, index, head0.hash) && Highest(s, head0)
    requires head.hash in s && s[head.hash] == head && head.number <= head0.number
    requires head.hash == AncestorAt(s, genesis, head0.hash, head.number)
    requires head.number == if n < head0.number then n else head0.number
    requires DeletesAbove(s, headers, head.number) && MarksAbove(index, marks, head.number)
    requires t == map h | h in s && (h, s[h].number) !in headers :: s[h]
    requires index' == map m | m in index && m !in marks :: index[m]
    ensures t == UpTo(s, n) && ParentClosed(t, genesis) && Highest(t, head)
    ensures Canonical(t, genesis, index', head.hash)
  {
    assert t == UpTo(s, head.number) && UpTo(s, head.number) == UpTo(s, n);
    forall h | h in t
      ensures HeaderOk(t, genesis, h)
    {
      assert HeaderOk(s, genesis, h);
    }
    forall m: nat | m <= head.number
      ensures m in index' && index'[m] == AncestorAt(t, genesis, head.hash, m)
    {
      AncestorStable(t, s, genesis, head.hash, m);
      AncestorOfAncestor(s, genesis, head0.hash, head.number, m);
    }
  }

  /** The headers to store: once one is unknown, all that follow are taken as unknown. */
  method CollectNew(s: Store, headers: seq<Header>) returns (inserted: seq<Header>, first: int)
    ensures inserted == headers[KnownPrefix(s, headers)..]
    ensures first == if KnownPrefix(s, headers) < |headers| then KnownPrefix(s, headers) else -1
  {
    inserted, first := [], -1;
    var parentKnown := true;
    for i := 0 to |headers|
      invariant parentKnown <==> forall k | 0 <= k < i :: headers[k].hash in s
      invariant parentKnown ==> inserted == [] && first == -1
      invariant !parentKnown ==> 0 <= first < i && headers[first].hash !in s
                                 && (forall k | 0 <= k < first :: headers[k].hash in s) && inserted == headers[first..i]
    {
      var alreadyKnown := parentKnown && headers[i].hash in s;
      if !alreadyKnown {
        inserted := inserted + [headers[i]];
        if first < 0 {
          first := i;
        }
      }
      parentKnown := alreadyKnown;
    }
    if parentKnown {
      PrefixIs(s, headers, |headers|);
    } else {
      PrefixIs(s, headers, first);
    }
  }

  lemma PrefixIs(s: Store, hs: seq<Header>, k: nat)
    requires k <= |hs| && (forall i | 0 <= i < k :: hs[i].hash in s) && (k < |hs| ==> hs[k].hash !in s)
    ensures KnownPrefix(s, hs) == k
  {
  }

  /** Storing the unknown suffix of a run amounts to storing the run. */
  lemma InsertNew(s: Store, genesis: Header, hs: seq<Header>, k: nat)
    requires ParentClosed(s, genesis) && Linked(hs) && Identified(s, hs) && hs != [] && ParentKnown(s, hs[0])
    requires k <= |hs| && forall i | 0 <= i < k :: hs[i].hash in s
    ensures ParentClosed(Insert(s, hs[k..]), genesis) && Extends(s, Insert(s, hs[k..]), hs)
  {
    var rest := hs[k..];
    assert Linked(rest) && Identified(s, rest);
    if rest != [] && k > 0 {
      assert hs[k - 1 + 1].parent == hs[k - 1].hash;
      LinkedNumbers(hs, k);
    }
    InsertKeeps(s, genesis, rest, |rest|);
    assert rest[..|rest|] == rest;
    var t := Insert(s, rest);
    forall i | 0 <= i < |hs|
      ensures hs[i].hash in t && t[hs[i].hash] == hs[i]
    {
      if i >= k { assert rest[i - k] == hs[i]; }
    }
    assert forall h | h in rest :: h in hs;
  }

  /** A run on top of the current header is all new, since nothing is stored above. */
  lemma NoneKnownAbove(s: Store, current: Header, headers: seq<Header>)
    requires headers != [] && ParentKnown(s, headers[0]) && Identified(s, headers)
    requires Highest(s, current)
    ensures headers[0].parent == current.hash ==> KnownPrefix(s, headers) == 0
    ensures KnownPrefix(s, headers) == |headers| ==> headers[|headers| - 1].number <= current.number
  {
  }

  lemma AllStored(s: Store, t: Store, headers: seq<Header>)
    requires Extends(s, t, headers)
    ensures forall i | 0 <= i < |headers| :: headers[i].hash in t && t[headers[i].hash] == headers[i]
  {
  }

  /** Deletes index entries upwards from `from`, up to the first missing one. */
  method DeleteRun(index: Index, from: nat, ghost bound: nat) returns (next: Index, ghost end: nat)
    requires forall n | n in index :: n < bound
    ensures from <= end && end !in index && forall n: nat | from <= n < end :: n in index
    ensures next == map n | n in index && !(from <= n < end) :: index[n]
  {
    next := index;
    var i := from;
    while i in index
      invariant from <= i && forall n: nat | from <= n < i :: n in index
      invariant next == map n | n in index && !(from <= n < i) :: index[n]
      decreases bound - i
    {
      next := next - {i};
      i := i + 1;
    }
    end := i;
  }

  /** Overwrites stale entries of `next0` downwards from `h0` until the walk meets the index. */
  method Rejoin(s: Store, genesis: Header, ghost head: Hash, index: Index, next0: Index, h0: Hash) returns (next: Index)
    requires Canonical(s, genesis, index, head) && h0 in s
    requires forall n: nat | n <= s[h0].number :: SameAt(next0, index, n)
    ensures Rejoined(s, genesis, next0, next, h0)
  {
    hide Canonical, ParentClosed, AncestorAt;
    ClosedAt(s, genesis, index, head);
    SelfAncestor(s, genesis, h0);
    next := next0;
    var h := h0;
    var number := s[h0].number;
    while !(number in index && index[number] == h)
      invariant h in s && s[h].number == number <= s[h0].number && h == AncestorAt(s, genesis, h0, number)
      invariant forall n: nat | number < n <= s[h0].number :: n in next && next[n] == AncestorAt(s, genesis, h0, n)
      invariant forall n: nat | n <= number || n > s[h0].number :: SameAt(next, next0, n)
      decreases number
    {
      RejoinStep(s, genesis, head, index, h0, h);
      ghost var before := next;
      next := next[number := h];
      assert forall n: nat | SameAt(before, next0, n) && n != number :: SameAt(next, next0, n);
      h, number := s[h].parent, number - 1;
    }
    forall n: nat | n <= number
      ensures n in next && next[n] == AncestorAt(s, genesis, h0, n)
    {
      CanonicalBelow(s, genesis, index, head, h, n);
      AncestorOfAncestor(s, genesis, h0, number, n);
      assert SameAt(next, next0, n) && SameAt(next0, index, n);
    }
  }

  lemma ClosedAt(s: Store, genesis: Header, index: Index, head: Hash)
    requires Canonical(s, genesis, index, head)
    ensures ParentClosed(s, genesis)
  {
  }

  lemma GenesisMarked(s: Store, genesis: Header, index: Index, head: Hash)
    requires Canonical(s, genesis, index, head)
    ensures 0 in index && index[0] == genesis.hash
  {
    assert HeaderOk(s, genesis, AncestorAt(s, genesis, head, 0));
  }

  lemma RejoinStep(s: Store, genesis: Header, head: Hash, index: Index, h0: Hash, h: Hash)
    requires Canonical(s, genesis, index, head) && h0 in s && h in s && s[h].number <= s[h0].number
    requires h == AncestorAt(s, genesis, h0, s[h].number)
    requires !(s[h].number in index && index[s[h].number] == h)
    ensures s[h].number > 0 && s[h].parent in s && s[s[h].parent].number == s[h].number - 1
    ensures s[h].parent == AncestorAt(s, genesis, h0, s[h].number - 1)
  {
    assert HeaderOk(s, genesis, h);
    GenesisMarked(s, genesis, index, head);
    ParentIsAncestor(s, genesis, h);
    AncestorOfAncestor(s, genesis, h0, s[h].number, s[h].number - 1);
  }

  method MarkAll(index: Index, hs: seq<Header>) returns (next: Index)
    ensures next == Mark(index, hs)
  {
    next := index;
    for i := 0 to |hs|
      invariant next == Mark(index, hs[..i])
    {
      assert hs[..i + 1][..i] == hs[..i];
      next := next[hs[i].number := hs[i].hash];
    }
    assert hs[..|hs|] == hs;
  }

  /** The canonical index after a reorganisation onto the run `headers`. Stored headers are marked again only up to
      the first new one, so a run without any new header is not marked at all. */
  method NewIndex(s: Store, genesis: Header, canon: Index, current: Header, headers: seq<Header>, inserted: seq<Header>,
                  first: int)
    returns (next: Index)
    requires Canonical(s, genesis, canon, current.hash) && s[current.hash] == current
    requires Linked(headers) && headers != [] && headers[0].number > 0
    requires forall i | 0 <= i < |headers| :: headers[i].hash in s && s[headers[i].hash] == headers[i]
    requires headers[|headers| - 1].number >= current.number
    requires (0 <= first < |headers| && inserted == headers[first..]) || (first == -1 && inserted == [])
    requires first == -1 ==> headers[|headers| - 1].number == current.number
    requires headers[0].parent == current.hash ==> first == 0
    ensures Canonical(s, genesis, next, headers[|headers| - 1].hash) <==>
              first >= 0 || headers[|headers| - 1] == current
  {
    next := canon;
    assert HeaderOk(s, genesis, headers[0].hash);
    if headers[0].parent != current.hash {
      ghost var end;
      next, end := DeleteRun(canon, headers[|headers| - 1].number + 1, current.number + 1);
      assert end !in canon ==> next == canon;
      next := Rejoin(s, genesis, current.hash, canon, next, headers[0].parent);
    } else {
      assert Rejoined(s, genesis, canon, canon, current.hash);
    }
    ghost var mid := next;
    if headers[0].parent != current.hash {
      next := MarkAll(next, if first >= 0 then headers[..first] else []);
    } else {
      assert headers[..first] == [];
    }
    next := MarkAll(next, inserted);
    if first >= 0 {
      MarkInTwo(mid, headers, first, |headers|);
      assert headers[..|headers|] == headers && headers[first..|headers|] == inserted;
      RunIsCanonical(s, genesis, canon, mid, current, headers);
    } else {
      UnmarkedRun(s, genesis, canon, mid, current, headers);
    }
  }

  /** Marking the whole run over an index that agrees with its parent makes the last header canonical. */
  lemma RunIsCanonical(s: Store, genesis: Header, canon: Index, mid: Index, current: Header, headers: seq<Header>)
    requires Canonical(s, genesis, canon, current.hash) && s[current.hash] == current
    requires Linked(headers) && headers != [] && headers[0].number > 0
    requires forall i | 0 <= i < |headers| :: headers[i].hash in s && s[headers[i].hash] == headers[i]
    requires headers[|headers| - 1].number >= current.number
    requires headers[0].parent in s && Rejoined(s, genesis, canon, mid, headers[0].parent)
    ensures Canonical(s, genesis, Mark(mid, headers), headers[|headers| - 1].hash)
  {
    var k := |headers| - 1;
    LinkedNumbers(headers, k);
    assert HeaderOk(s, genesis, headers[0].hash);
    forall n: nat | n <= headers[k].number
      ensures n in Mark(mid, headers) && Mark(mid, headers)[n] == AncestorAt(s, genesis, headers[k].hash, n)
    {
      AncestorInRun(s, genesis, headers, k, n);
      MarkAt(mid, headers, n);
    }
    forall n | n in Mark(mid, headers)
      ensures n <= headers[k].number
    {
      MarkAt(mid, headers, n);
      assert n > headers[k].number ==> SameAt(mid, canon, n);
    }
  }

  /** Without marks the entry at the height of the run stays with the old head. */
  lemma UnmarkedRun(s: Store, genesis: Header, canon: Index, mid: Index, current: Header, headers: seq<Header>)
    requires Canonical(s, genesis, canon, current.hash) && s[current.hash] == current
    requires Linked(headers) && headers != [] && headers[0].number > 0
    requires forall i | 0 <= i < |headers| :: headers[i].hash in s && s[headers[i].hash] == headers[i]
    requires headers[|headers| - 1].number == current.number
    requires headers[0].parent in s && Rejoined(s, genesis, canon, mid, headers[0].parent)
    ensures Canonical(s, genesis, mid, headers[|headers| - 1].hash) <==> headers[|headers| - 1] == current
  {
    var k := |headers| - 1;
    LinkedNumbers(headers, k);
    assert HeaderOk(s, genesis, headers[0].hash);
    assert SameAt(mid, canon, current.number);
    assert current.number in mid && mid[current.number] == current.hash;
    if headers[k] == current {
      forall n: nat
        ensures SameAt(mid, canon, n)
      {
        if n <= s[headers[0].parent].number {
          AncestorInRun(s, genesis, headers, k, n);
        }
      }
      assert forall n | n in mid :: SameAt(mid, canon, n);
      assert forall n | n in canon :: SameAt(mid, canon, n);
      assert mid == canon;
    }
  }

  lemma ExtendsByOne(s: Store, t: Store, genesis: Header, h: Header)
    requires ParentClosed(t, genesis) && Extends(s, t, [h])
    ensures t == s[h.hash := h]
  {
    assert [h][0] == h;
    forall x | x in t && x !in s
      ensures x == h.hash
    {
      assert HeaderOk(t, genesis, x);
    }
  }

  /** A run that leaves a wrong index: two siblings, then the losing one imported again and winning the toss. */
  method ReimportOfSibling() returns (hc: HeaderChain)
    ensures fresh(hc) && hc.StoreOk() && hc.current == Header(2, 0, 1)
    ensures !Canonical(hc.store, hc.genesis, hc.canon, hc.current.hash)
  {
    hide Canonical, ParentClosed, Highest;
    var first, second := Header(1, 0, 1), Header(2, 0, 1);
    hc := new HeaderChain(Header(0, 0, 0));
    assert hc.store == map[0 := Header(0, 0, 0)];
    var _ := hc.WriteHeaders([first], false);
    ExtendsByOne(map[0 := Header(0, 0, 0)], hc.store, hc.genesis, first);
    var _ := hc.WriteHeaders([second], false);
    ExtendsByOne(map[0 := Header(0, 0, 0), 1 := first], hc.store, hc.genesis, second);
    assert Identified(hc.store, [second]);
    assert KnownPrefix(hc.store, [second]) == 1;
    var _ := hc.WriteHeaders([second], true);
  }
}
