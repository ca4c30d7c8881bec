/** Values shared by the transaction pool components. Hashes and addresses are opaque identities. */
module Types {
  import opened Options

  type Address = nat
  type Hash = nat

  const TX_SLOT_SIZE := 32 * 1024

  /** A signed transaction whose sender has been recovered. Amounts are in `feeCurrency` (None is CELO)
      unless `denominated`, in which case prices are in CELO and the fee is paid in `feeCurrency`. */
  datatype Transaction = Transaction(
    hash: Hash, from: Address, nonce: nat, size: nat,
    gas: nat, gasPrice: nat, gasFeeCap: nat, gasTipCap: nat, value: nat,
    feeCurrency: Option<Address>, denominated: bool, maxFeeInFeeCurrency: nat,
    gatewayFee: nat, gatewaySet: bool)
  {
    /** What the gas costs, in the currency the price is quoted in. */
    function Fee(): nat { gasPrice * gas + gatewayFee }

    /** What a CELO payer needs in total. */
    function Cost(): nat { gasPrice * gas + value + gatewayFee }

    function DenominatedFeeCurrency(): Option<Address> {
      if denominated then None else feeCurrency
    }

    function Slots(): nat { (size + TX_SLOT_SIZE - 1) / TX_SLOT_SIZE }
  }

  /** As many slots of 32 KiB as the size needs, and no more. */
  lemma SlotsMeans(tx: Transaction)
    ensures tx.size <= tx.Slots() * 32768 < tx.size + 32768
  {
  }
}
