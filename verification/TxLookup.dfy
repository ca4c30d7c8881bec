/** txLookup: every pooled transaction by hash, split into locals and remotes, with slot accounting. */
module Lookup {
  import opened Options
  import opened Types

  type Known = map<Hash, Transaction>

  predicate InLookup(e: Known, tx: Transaction) {
    tx.hash in e && e[tx.hash] == tx
  }

  ghost predicate HashKeyed(e: Known) {
    forall h | h in e :: e[h].hash == h
  }

  /** The slots taken by all transactions of `e`. */
  ghost function SlotSum(e: Known): nat {
    if e == map[] then 0
    else
      var h :| h in e;
      e[h].Slots() + SlotSum(e - {h})
  }

  lemma {:induction false} SlotSumWithout(e: Known, h: Hash)
    requires h in e
    ensures SlotSum(e) == e[h].Slots() + SlotSum(e - {h})
    decreases |e|
  {
    var k :| k in e && SlotSum(e) == e[k].Slots() + SlotSum(e - {k});
    if k != h {
      SlotSumWithout(e - {k}, h);
      SlotSumWithout(e - {h}, k);
      assert e - {k} - {h} == e - {h} - {k};
    }
  }

  lemma SlotSumWith(e: Known, tx: Transaction)
    requires tx.hash !in e
    ensures SlotSum(e[tx.hash := tx]) == SlotSum(e) + tx.Slots()
  {
    SlotSumWithout(e[tx.hash := tx], tx.hash);
    assert e[tx.hash := tx] - {tx.hash} == e;
  }

  /** What putting `tx` on one side means for the keys and the slots of the whole. */
  lemma PutSlots(l: Known, r: Known, l': Known, r': Known, tx: Transaction, local: bool)
    requires l.Keys !! r.Keys
    requires l' == if local then l[tx.hash := tx] else l
    requires r' == if local then r else r[tx.hash := tx]
    ensures tx.hash !in l + r ==> l' + r' == (l + r)[tx.hash := tx] && SlotSum(l' + r') == SlotSum(l + r) + tx.Slots()
    ensures l'.Keys !! r'.Keys <==> tx.hash !in (if local then r else l)
    ensures tx.hash in (if local then l else r) ==>
              SlotSum(l' + r') == SlotSum(l + r) - (l + r)[tx.hash].Slots() + tx.Slots()
  {
    hide SlotSum;
    var e := l + r;
    if tx.hash !in (if local then r else l) {
      assert l' + r' == e[tx.hash := tx];
      SlotSumWith(e - {tx.hash}, tx);
      assert (e - {tx.hash})[tx.hash := tx] == e[tx.hash := tx];
      if tx.hash in e {
        SlotSumWithout(e, tx.hash);
      } else {
        assert e - {tx.hash} == e;
      }
    } else {
      assert tx.hash in l'.Keys && tx.hash in r'.Keys;
    }
  }

  function SentBySome(e: Known, accounts: set<Address>): Known {
    map h | h in e && e[h].from in accounts :: e[h]
  }

  function SentByOthers(e: Known, accounts: set<Address>): Known {
    map h | h in e && e[h].from !in accounts :: e[h]
  }

  /** What the locals are after the remotes of `accounts` have moved. */
  lemma LocalsAfter(l: Known, r: Known, l': Known, r': Known, accounts: set<Address>)
    requires l.Keys !! r.Keys && l'.Keys !! r'.Keys && l' + r' == l + r
    requires r'.Keys <= r.Keys && forall h | h in r :: h in r' <==> r[h].from !in accounts
    ensures l' == l + SentBySome(r, accounts) && r' == SentByOthers(r, accounts)
  {
    var moved := SentBySome(r, accounts);
    forall h | h in r'
      ensures r'[h] == r[h]
    {
      assert (l' + r')[h] == (l + r)[h];
    }
    forall h
      ensures h in l' <==> h in l + moved
      ensures h in l' ==> l'[h] == (l + moved)[h]
    {
      assert h in l' + r' <==> h in l + r;
      if h in l' { assert l'[h] == (l' + r')[h] == (l + r)[h]; }
    }
  }

  /** The locals and the remotes. */
  datatype TwoSides = TwoSides(locals: Known, remotes: Known) {
    function Without(h: Hash): TwoSides { TwoSides(locals - {h}, remotes - {h}) }
  }

  ghost predicate SubMap(a: Known, b: Known) {
    forall h | h in a :: h in b && a[h] == b[h]
  }

  /** Transactions may have left, but none has come or changed sides. */
  ghost predicate Fewer(z: TwoSides, z0: TwoSides) {
    SubMap(z.locals, z0.locals) && SubMap(z.remotes, z0.remotes)
  }

  class TxLookup {
    var slots: int
    var locals: Known
    var remotes: Known

    ghost predicate Valid()
      reads this
    {
      && HashKeyed(locals) && HashKeyed(remotes)
      && locals.Keys !! remotes.Keys
      && slots == SlotSum(Everything())
    }

    ghost function Everything(): Known
      reads this
    {
      locals + remotes
    }

    ghost function Sides(): TwoSides
      reads this
    {
      TwoSides(locals, remotes)
    }

    constructor ()
      ensures Valid() && Everything() == map[] && locals == map[] && remotes == map[] && slots == 0
    {
      slots, locals, remotes := 0, map[], map[];
    }

    method Get(hash: Hash) returns (tx: Option<Transaction>)
      requires Valid()
      ensures tx == if hash in Everything() then Some(Everything()[hash]) else None
    {
      if hash in locals {
        return Some(locals[hash]);
      }
      return if hash in remotes then Some(remotes[hash]) else None;
    }

    /** Puts `tx` on one side and counts its slots. That keeps the lookup in order for a new hash. A known one is
        counted again, so then it stays in order only on the same side and if the old one took no slots. */
    method Add(tx: Transaction, local: bool)
      requires Valid()
      modifies this
      ensures Valid() <==>
                || tx.hash !in old(Everything())
                || (tx.hash in (if local then old(locals) else old(remotes)) && old(Everything()[tx.hash]).Slots() == 0)
      ensures locals == if local then old(locals)[tx.hash := tx] else old(locals)
      ensures remotes == if local then old(remotes) else old(remotes)[tx.hash := tx]
      ensures tx.hash !in old(Everything()) ==> Everything() == old(Everything())[tx.hash := tx]
      ensures slots == old(slots) + tx.Slots()
    {
      slots := slots + tx.Slots();
      if local {
        locals := locals[tx.hash := tx];
      } else {
        remotes := remotes[tx.hash := tx];
      }
      PutSlots(old(locals), old(remotes), locals, remotes, tx, local);
    }

    method Remove(hash: Hash)
      requires Valid()
      modifies this
      ensures Valid()
      ensures Everything() == old(Everything()) - {hash}
      ensures locals == old(locals) - {hash} && remotes == old(remotes) - {hash}
      ensures slots == old(slots) - if hash in old(Everything()) then old(Everything()[hash].Slots()) else 0
    {
      if hash !in locals && hash !in remotes {
        assert locals == locals - {hash} && remotes == remotes - {hash};
        return;
      }
      var tx := if hash in locals then locals[hash] else remotes[hash];
      SlotSumWithout(Everything(), hash);
      slots := slots - tx.Slots();
      locals := locals - {hash};
      remotes := remotes - {hash};
      assert Everything() == old(Everything()) - {hash};
    }

    /** Moves the remotes sent by `accounts` to the locals. */
    method RemoteToLocals(accounts: set<Address>) returns (migrated: nat)
      requires Valid()
      modifies this
      ensures Valid()
      ensures Everything() == old(Everything())
      ensures remotes == SentByOthers(old(remotes), accounts)
      ensures locals == old(locals) + SentBySome(old(remotes), accounts)
      ensures migrated == |old(remotes)| - |remotes|
    {
      hide SlotSum, HashKeyed, SentBySome, SentByOthers;
      migrated := 0;
      var todo := remotes.Keys;
      while todo != {}
        invariant todo <= remotes.Keys && Valid() && Everything() == old(Everything())
        invariant remotes.Keys <= old(remotes).Keys && forall h | h in remotes :: remotes[h] == old(remotes)[h]
        invariant forall h | h in old(remotes) && h !in todo :: h in remotes <==> old(remotes)[h].from !in accounts
        invariant migrated == |old(remotes)| - |remotes|
        decreases |todo|
      {
        var h :| h in todo;
        if remotes[h].from in accounts {
          Migrate(h);
          migrated := migrated + 1;
        }
        todo := todo - {h};
      }
      LocalsAfter(old(locals), old(remotes), locals, remotes, accounts);
    }

    method Migrate(h: Hash)
      requires Valid() && h in remotes
      modifies this
      ensures Valid() && Everything() == old(Everything())
      ensures remotes == old(remotes) - {h} && |remotes| == |old(remotes)| - 1
    {
      locals := locals[h := remotes[h]];
      remotes := remotes - {h};
      assert remotes.Keys == old(remotes).Keys - {h};
      assert Everything() == old(Everything());
    }
  }
}
