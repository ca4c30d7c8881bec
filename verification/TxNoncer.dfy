/** txNoncer: the next executable nonce per account, falling back to the chain state for unknown accounts. */
module Noncer {
  import opened Types

  class TxNoncer {
    const fallback: Address -> nat
    var nonces: map<Address, nat>

    constructor (fallback: Address -> nat)
      ensures this.fallback == fallback && nonces == map[]
    {
      this.fallback := fallback;
      nonces := map[];
    }

    /** The nonce the pool sees, whether or not it has been read before. */
    ghost function Nonce(a: Address): nat
      reads this
    {
      if a in nonces then nonces[a] else fallback(a)
    }

    method Get(a: Address) returns (n: nat)
      modifies this
      ensures n == old(Nonce(a))
      ensures forall b :: Nonce(b) == old(Nonce(b))
    {
      if a !in nonces {
        nonces := nonces[a := fallback(a)];
      }
      n := nonces[a];
    }

    method Set(a: Address, n: nat)
      modifies this
      ensures forall b :: Nonce(b) == if b == a then n else old(Nonce(b))
    {
      nonces := nonces[a := n];
    }

    method SetIfLower(a: Address, n: nat)
      modifies this
      ensures forall b :: Nonce(b) == if b == a && n < old(Nonce(a)) then n else old(Nonce(b))
    {
      if a !in nonces {
        nonces := nonces[a := fallback(a)];
      }
      if nonces[a] <= n {
        return;
      }
      nonces := nonces[a := n];
    }
  }
}
