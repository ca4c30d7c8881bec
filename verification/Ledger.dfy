/** Balances of one currency. */
module Ledgers {
  import opened Types

  /** Accounts without an entry have a balance of zero. */
  type Ledger = map<Address, int>

  function Balance(l: Ledger, a: Address): int {
    if a in l then l[a] else 0
  }

  function Credit(l: Ledger, a: Address, amount: int): Ledger {
    l[a := Balance(l, a) + amount]
  }

  /** The sum of all balances. */
  ghost function Total(l: Ledger): int {
    if l == map[] then 0
    else
      var a :| a in l;
      l[a] + Total(l - {a})
  }

  lemma {:induction false} TotalPick(l: Ledger, a: Address)
    requires a in l
    ensures Total(l) == l[a] + Total(l - {a})
    decreases |l|
  {
    var b :| b in l && Total(l) == l[b] + Total(l - {b});
    if b != a {
      TotalPick(l - {b}, a);
      TotalPick(l - {a}, b);
      assert l - {b} - {a} == l - {a} - {b};
    }
  }

  /** A credit changes the total by its amount, whoever gets it. */
  lemma TotalCredit(l: Ledger, a: Address, amount: int)
    ensures Total(Credit(l, a, amount)) == Total(l) + amount
  {
    var l' := Credit(l, a, amount);
    TotalPick(l', a);
    if a in l {
      TotalPick(l, a);
      assert l' - {a} == l - {a};
    } else {
      assert l' - {a} == l;
    }
  }
}
