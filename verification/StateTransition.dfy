/** Buying gas, refunding it and distributing the fees of one message, and the gas accounting of a block. */
module StateTransitions {
  import opened Options
  import opened Types
  import opened Currency
  import opened Ledgers

  const MAX_UINT64 := 0xFFFF_FFFF_FFFF_FFFF
  const REFUND_QUOTIENT := 2
  const REFUND_QUOTIENT_EIP3529 := 5

  class GasPool {
    var gas: nat

    constructor (gas: nat)
      requires gas <= MAX_UINT64
      ensures this.gas == gas
    {
      this.gas := gas;
    }

    /** Panics when the sum does not fit, which callers must rule out. */
    method AddGas(amount: nat)
      requires gas + amount <= MAX_UINT64
      modifies this
      ensures gas == old(gas) + amount
    {
      gas := gas + amount;
    }

    method SubGas(amount: nat) returns (ok: bool)
      modifies this
      ensures ok == (old(gas) >= amount) && gas == if ok then old(gas) - amount else old(gas)
    {
      ok := gas >= amount;
      if ok {
        gas := gas - amount;
      }
    }
  }

  /** A message: prices are in `feeCurrency` (None is CELO) unless `maxFeeInFeeCurrency` is set, when they are in CELO
      and the fee is converted. `fake` ones, made up for a call, carry no nonce of their own. */
  datatype Message = Message(
    from: Address, nonce: nat, fake: bool, ethCompatible: bool,
    gas: nat, gasPrice: nat, gasFeeCap: nat, gasTipCap: nat, value: nat, feeCurrency: Option<Address>,
    maxFeeInFeeCurrency: Option<nat>, gatewayFeeRecipient: Option<Address>, gatewayFee: nat)
  {
    predicate GatewaySet() { gatewayFeeRecipient.Some? || gatewayFee != 0 }
  }

  datatype Forks = Forks(donut: bool, espresso: bool, gingerbread: bool, hFork: bool)

  /** What the block and the contracts contribute: forks, minimum price, whether prices are checked at all, conversion
      rate, fee recipients, and whether the calls into token contracts succeed. */
  datatype Env = Env(
    forks: Forks, gasPriceMinimum: nat, noBaseFee: bool, rate: Rate, rateKnown: bool,
    coinbase: Address, feeHandler: Option<Address>,
    whitelisted: bool, balanceKnown: bool, debitOk: bool, creditOk: bool)
  {
    predicate espresso() { forks.espresso }
  }

  datatype Error =
    | EthCompatibleNotSupported | EthCompatibleIsntCompatible | GatewayFeeDeprecated | TxTypeNotSupported
    | DenominatedNoCurrency | RateUnknown | NonceTooHigh | NonceTooLow | FeeCapVeryHigh | TipVeryHigh | TipAboveFeeCap
    | FeeCapTooLow | GasPriceBelowMinimum | IntrinsicGas | NonWhitelistedFeeCurrency | BalanceUnknown
    | DenominatedLowMaxFee | InsufficientFunds | GasLimitReached | DebitFailed | InsufficientFundsForTransfer
    | CreditFailed

  /** The gateway fee counts only with a recipient. */
  function GatewayPart(m: Message): nat {
    if m.gatewayFeeRecipient.Some? then m.gatewayFee else 0
  }

  function EffectiveFee(m: Message): nat {
    m.gas * m.gasPrice + GatewayPart(m)
  }

  /** The highest fee the message allows. */
  function FeeGap(m: Message): nat {
    m.gas * m.gasFeeCap + GatewayPart(m)
  }

  /** What is debited from the sender, in the currency it is paid in. */
  function Debited(m: Message, env: Env): nat {
    if m.feeCurrency.Some? && m.maxFeeInFeeCurrency.Some? then FromBase(env.rate, EffectiveFee(m)) else EffectiveFee(m)
  }

  function CanPayFee(m: Message, env: Env, balance: int): Option<Error> {
    if m.feeCurrency.None? then
      if env.espresso() then (if balance < FeeGap(m) + m.value then Some(InsufficientFunds) else None)
      else (if balance < EffectiveFee(m) then Some(InsufficientFunds) else None)
    else if !env.balanceKnown then Some(BalanceUnknown)
    else if env.espresso() then
      if m.maxFeeInFeeCurrency.Some? then
        var feeGap := FromBase(env.rate, FeeGap(m));
        if feeGap > m.maxFeeInFeeCurrency.value then Some(DenominatedLowMaxFee)
        else if balance < feeGap then Some(InsufficientFunds) else None
      else if balance < FeeGap(m) then Some(InsufficientFunds) else None
    else if balance <= EffectiveFee(m) then Some(InsufficientFunds) else None
  }

  /** A message passes the fee check if and only if the balance has, at the highest price the message allows, its gas
      and gateway fee, and for a CELO payer the value; before Espresso it is the effective price without the value, and
      for tokens strictly more. A converted fee is rounded down, and must be within its maximum too. */
  lemma PayableIff(m: Message, env: Env, balance: int)
    ensures var gateway := if m.gatewayFeeRecipient.Some? then m.gatewayFee else 0;
            var most := m.gas * m.gasFeeCap + gateway;
            CanPayFee(m, env, balance).None? <==>
            if m.feeCurrency.None? then
              balance >= if env.forks.espresso then most + m.value else m.gas * m.gasPrice + gateway
            else
              && env.balanceKnown
              && if !env.forks.espresso then balance > m.gas * m.gasPrice + gateway
                 else if m.maxFeeInFeeCurrency.None? then balance >= most
                 else
                   && most * env.rate.numerator < (balance + 1) * env.rate.denominator
                   && most * env.rate.numerator < (m.maxFeeInFeeCurrency.value + 1) * env.rate.denominator
  {
    if m.feeCurrency.Some? && env.espresso() && m.maxFeeInFeeCurrency.Some? {
      FloorAtMost(FeeGap(m) * env.rate.numerator, env.rate.denominator, balance);
      FloorAtMost(FeeGap(m) * env.rate.numerator, env.rate.denominator, m.maxFeeInFeeCurrency.value);
    }
  }

  /** What is debited: gas at the effective price with the gateway fee of a recipient, or what that buys in tokens. */
  lemma DebitMeans(m: Message, env: Env)
    ensures var fee := m.gas * m.gasPrice + if m.gatewayFeeRecipient.Some? then m.gatewayFee else 0;
            if m.feeCurrency.Some? && m.maxFeeInFeeCurrency.Some?
            then Debited(m, env) * env.rate.denominator <= fee * env.rate.numerator
                                                         < (Debited(m, env) + 1) * env.rate.denominator
            else Debited(m, env) == fee
  {
    FromBaseRoundsDown(env.rate, EffectiveFee(m));
  }

  /** Whoever can pay has the debited amount, if the price is within the fee cap. */
  lemma PayableCoversDebit(m: Message, env: Env, balance: int)
    requires CanPayFee(m, env, balance).None? && (env.espresso() ==> m.gasPrice <= m.gasFeeCap)
    requires m.maxFeeInFeeCurrency.Some? ==> env.espresso()
    ensures balance >= Debited(m, env)
    ensures env.espresso() && m.maxFeeInFeeCurrency.Some? && m.feeCurrency.Some? ==>
              Debited(m, env) <= m.maxFeeInFeeCurrency.value
  {
    if env.espresso() {
      MulMono(m.gas, m.gasPrice, m.gasFeeCap);
      FromBaseMono(env.rate, EffectiveFee(m), FeeGap(m));
    }
  }

  /** Post-Espresso, whoever can pay a CELO fee can also transfer the value afterwards. */
  lemma PayableCoversTransfer(m: Message, env: Env, balance: int)
    requires env.espresso() && m.feeCurrency.None? && CanPayFee(m, env, balance).None? && m.gasPrice <= m.gasFeeCap
    ensures balance - Debited(m, env) >= m.value
  {
    MulMono(m.gas, m.gasPrice, m.gasFeeCap);
  }

  /** Before Espresso the value is not covered: a sender can pass the fee check and fail the transfer. */
  lemma PayableMissesTransfer(m: Message, env: Env)
    requires !env.espresso() && m.feeCurrency.None? && m.value > 0
    ensures CanPayFee(m, env, EffectiveFee(m)).None? && EffectiveFee(m) - Debited(m, env) < m.value
  {
  }

  lemma MulMono(k: nat, a: nat, b: nat)
    requires a <= b
    ensures k * a <= k * b
  {
  }

  lemma FromBaseMono(r: Rate, a: nat, b: nat)
    requires a <= b
    ensures FromBase(r, a) <= FromBase(r, b)
  {
    MulMono(r.numerator, a, b);
    DivMono(a * r.numerator, b * r.numerator, r.denominator);
  }

  lemma DivMono(a: nat, b: nat, d: nat)
    requires a <= b && d > 0
    ensures a / d <= b / d
  {
    DivBounds(a, d);
    DivBounds(b, d);
    LessByMul(a / d, b / d + 1, d);
  }

  lemma LessByMul(x: int, y: int, d: nat)
    requires d > 0 && x * d < y * d
    ensures x < y
  {
  }

  // ---- Distributing the fee ----

  /** The four credits of a message. */
  datatype Credits = Credits(gateway: int, base: int, tip: int, refund: int) {
    function Sum(): int { gateway + base + tip + refund }
  }

  /** FromBase on any integer: big.Int Div rounds towards minus infinity for a positive divisor. */
  function Convert(r: Rate, amount: int): int {
    amount * r.numerator / r.denominator
  }

  /** The credits, given the gas left. Without a fee handler the base part goes back to the sender. */
  function CreditsFor(m: Message, env: Env, gasLeft: nat): Credits
    requires gasLeft <= m.gas
  {
    var used := m.gas - gasLeft;
    var base := used * env.gasPriceMinimum;
    var tip := used * m.gasPrice - base;
    var denominated := m.maxFeeInFeeCurrency.Some?;
    var tip' := if denominated then Convert(env.rate, tip) else tip;
    var base' := if denominated then Convert(env.rate, base) else base;
    var refund := if denominated then Debited(m, env) - (tip' + base') else gasLeft * m.gasPrice;
    if env.feeHandler.Some? then Credits(m.gatewayFee, base', tip', refund)
    else Credits(m.gatewayFee, 0, tip', refund + base')
  }

  /** What the credits exceed the debit by: the gateway fee, as far as it was not debited. It is debited with a
      recipient only, and never converted. So they add up just when it was debited as such, or is zero. */
  lemma CreditsMatchDebit(m: Message, env: Env, gasLeft: nat)
    requires gasLeft <= m.gas && (m.maxFeeInFeeCurrency.Some? ==> m.feeCurrency.Some?)
    ensures CreditsFor(m, env, gasLeft).Sum() - Debited(m, env) == Unpaid(m)
    ensures CreditsFor(m, env, gasLeft).Sum() == Debited(m, env)
            <==> m.gatewayFee == 0 || (m.gatewayFeeRecipient.Some? && m.maxFeeInFeeCurrency.None?)
  {
    var used := m.gas - gasLeft;
    assert used * m.gasPrice + gasLeft * m.gasPrice == m.gas * m.gasPrice by {
      Distribute(used, gasLeft, m.gasPrice);
    }
  }

  /** The part of the gateway fee that is credited without having been debited. */
  function Unpaid(m: Message): nat {
    if m.maxFeeInFeeCurrency.Some? then m.gatewayFee else m.gatewayFee - GatewayPart(m)
  }

  /** A message that passes every check and is credited more than it was debited: a gateway fee without a recipient. */
  lemma UnownedGatewayFee() returns (m: Message, env: Env, balance: nat)
    ensures Admissible(m, env) && PricesOk(m, env) && CanPayFee(m, env, balance).None? && m.feeCurrency.Some?
    ensures forall gasLeft: nat | gasLeft <= m.gas :: CreditsFor(m, env, gasLeft).Sum() == Debited(m, env) + 5
  {
    m := Message(1, 0, false, false, 10, 3, 3, 0, 0, Some(7), None, None, 5);
    env := Env(Forks(true, true, false, false), 3, false, RateData(1, 1), false, 2, None, true, true, true, true);
    balance := 30;
    assert FeeGap(m) == 30 && Unpaid(m) == 5;
    forall gasLeft: nat | gasLeft <= m.gas
      ensures CreditsFor(m, env, gasLeft).Sum() == Debited(m, env) + 5
    {
      CreditsMatchDebit(m, env, gasLeft);
    }
  }

  lemma Distribute(a: int, b: int, p: int)
    ensures (a + b) * p == a * p + b * p
  {
  }

  /** For CELO-denominated messages the converted credits add up to the converted debit, rounding included. */
  lemma DenominatedCreditsMatch(m: Message, env: Env, gasLeft: nat)
    requires gasLeft <= m.gas && m.maxFeeInFeeCurrency.Some?
    ensures var c := CreditsFor(m, env, gasLeft);
            c.base + c.tip + c.refund == Debited(m, env) && c.gateway == m.gatewayFee
  {
  }

  /** Rounding never takes more than was debited: base and refund are never negative, and the tip is so exactly when gas
      was used at a price below the minimum. */
  lemma CreditsNotNegative(m: Message, env: Env, gasLeft: nat)
    requires gasLeft <= m.gas && (m.maxFeeInFeeCurrency.Some? ==> m.feeCurrency.Some?)
    ensures var c := CreditsFor(m, env, gasLeft);
            && c.base >= 0 && c.refund >= 0
            && (c.tip >= 0 <==> gasLeft == m.gas || m.gasPrice >= env.gasPriceMinimum)
  {
    var used := m.gas - gasLeft;
    NonNegative(gasLeft, m.gasPrice);
    NonNegative(used, env.gasPriceMinimum);
    NonNegative(used, m.gasPrice);
    SignOfTip(used, m.gasPrice, env.gasPriceMinimum);
    if m.maxFeeInFeeCurrency.Some? {
      Distribute(used, gasLeft, m.gasPrice);
      var base, tip := used * env.gasPriceMinimum, used * m.gasPrice - used * env.gasPriceMinimum;
      SignOfConverted(env.rate, tip);
      ConvertedParts(env.rate, base, tip, EffectiveFee(m));
    }
  }

  lemma SignOfTip(used: nat, price: nat, minimum: nat)
    ensures used * price - used * minimum >= 0 <==> used == 0 || price >= minimum
  {
    if price >= minimum {
      MulMono(used, minimum, price);
    } else if used > 0 {
      MulMono(used, price + 1, minimum);
      Distribute(price, 1, used);
    }
  }

  lemma SignOfConverted(r: Rate, amount: int)
    ensures Convert(r, amount) >= 0 <==> amount >= 0
  {
    var n, d := r.numerator, r.denominator;
    DivBounds(amount * n, d);
    if amount >= 0 {
      NonNegative(amount, n);
      NonNegativeDiv(amount * n, d);
    } else {
      LessOrEqualByMul(amount, -1, n);
      if amount * n / d >= 0 { NonNegative(amount * n / d, d); }
    }
  }

  /** A CELO-denominated message that passes every check and is credited a negative tip. At a rate of 1/3, the CELO
      minimum of 3 is a base fee of 1 in the fee currency. The price is computed from that base fee, and measured
      against the minimum in CELO. */
  lemma NegativeTip() returns (m: Message, env: Env, baseFee: nat, balance: nat)
    ensures baseFee == FromBase(env.rate, env.gasPriceMinimum)
    ensures m.gasPrice == EffectiveGasPrice(m.gasTipCap, m.gasFeeCap, baseFee)
    ensures Admissible(m, env) && PricesOk(m, env) && CanPayFee(m, env, balance).None?
    ensures CreditsFor(m, env, 0).tip < 0
  {
    m := Message(1, 0, false, false, 10, 2, 5, 1, 0, Some(7), Some(50), None, 0);
    env := Env(Forks(true, true, true, true), 3, false, RateData(1, 3), true, 2, None, true, true, true, true);
    baseFee, balance := 1, 50;
    assert FeeGap(m) == 50 && FromBase(env.rate, 50) == 16 && FromBase(env.rate, 3) == 1;
    CreditsNotNegative(m, env, 0);
  }

  lemma ConvertedParts(r: Rate, base: nat, tip: int, fee: nat)
    requires 0 <= base + tip <= fee
    ensures Convert(r, base) >= 0 && Convert(r, tip) + Convert(r, base) <= FromBase(r, fee)
  {
    var n, d := r.numerator, r.denominator;
    NonNegative(base, n);
    NonNegativeDiv(base * n, d);
    FloorsAdd(tip * n, base * n, d);
    Distribute(tip, base, n);
    FromBaseMono(r, tip + base, fee);
  }

  lemma NonNegativeDiv(a: nat, d: nat)
    requires d > 0
    ensures a / d >= 0
  {
  }

  lemma NonNegative(a: nat, b: nat)
    ensures a * b >= 0
  {
  }

  lemma FloorsAdd(a: int, b: int, d: nat)
    requires d > 0
    ensures a / d + b / d <= (a + b) / d
  {
    DivBounds(a, d);
    DivBounds(b, d);
    DivBounds(a + b, d);
    Distribute(a / d, b / d, d);
    LessByMul(a / d + b / d, (a + b) / d + 1, d);
  }

  // ---- Effective price ----

  /** EIP-1559: the tip on top of the base fee, up to the cap. */
  function EffectiveGasPrice(tipCap: nat, feeCap: nat, baseFee: nat): nat {
    if tipCap + baseFee <= feeCap then tipCap + baseFee else feeCap
  }

  /** With the cap at the minimum or above, the price reaches the minimum just when the tip closes the gap between the
      base fee it was computed from and the minimum; for messages priced in the currency they pay in the two are the
      same. */
  lemma PriceReachesMinimum(tipCap: nat, feeCap: nat, baseFee: nat, minimum: nat)
    requires feeCap >= minimum
    ensures EffectiveGasPrice(tipCap, feeCap, baseFee) <= feeCap
    ensures EffectiveGasPrice(tipCap, feeCap, baseFee) >= minimum <==> tipCap + baseFee >= minimum
  {
  }

  /** Prices whose cap reaches the minimum while the effective price does not. */
  lemma PriceBelowMinimum() returns (tipCap: nat, feeCap: nat, baseFee: nat, minimum: nat)
    ensures tipCap <= feeCap && minimum <= feeCap && EffectiveGasPrice(tipCap, feeCap, baseFee) < minimum
  {
    tipCap, feeCap, baseFee, minimum := 1, 5, 0, 3;
  }

  // ---- Admission ----

  /** Fork rules: what kinds of messages the block takes. */
  ghost predicate Admissible(m: Message, env: Env) {
    && (m.ethCompatible ==> env.forks.donut && m.feeCurrency.None? && !m.GatewaySet())
    && (m.GatewaySet() ==> !env.forks.gingerbread)
    && (m.maxFeeInFeeCurrency.Some? ==> env.forks.hFork && m.feeCurrency.Some? && env.rateKnown)
  }

  const MAX_UINT256 := 0xFFFF_FFFF_FFFF_FFFF_FFFF_FFFF_FFFF_FFFF_FFFF_FFFF_FFFF_FFFF_FFFF_FFFF_FFFF_FFFF

  /** The prices are sound and meet the minimum, unless the call asked for no price check. */
  ghost predicate PricesOk(m: Message, env: Env) {
    if !env.espresso() then env.noBaseFee || env.gasPriceMinimum <= m.gasPrice
    else
      || (env.noBaseFee && m.gasFeeCap == 0 && m.gasTipCap == 0)
      || (m.gasTipCap <= m.gasFeeCap <= MAX_UINT256 && env.gasPriceMinimum <= m.gasFeeCap)
  }

  ghost predicate NonceOk(m: Message, nonces: Nonces) {
    m.fake || m.nonce == NonceIn(nonces, m.from)
  }

  /** The message can be applied to the balances `w` and `nonces` in a block with `poolGas` left. */
  ghost predicate Applies(m: Message, env: Env, intrinsic: nat, poolGas: int, w: World, nonces: Nonces) {
    && Admissible(m, env) && NonceOk(m, nonces) && PricesOk(m, env)
    && intrinsic <= m.gas <= poolGas
    && env.whitelisted && CanPayFee(m, env, Balance(LedgerIn(w, m.feeCurrency), m.from)).None?
    && (m.feeCurrency.Some? ==> env.debitOk && env.creditOk)
    && Transferable(m, env, w)
  }

  /** The value can still be transferred once the fee is paid. */
  ghost predicate Transferable(m: Message, env: Env, w: World) {
    m.value == 0 || Balance(LedgerIn(w, None), m.from) - (if m.feeCurrency.None? then Debited(m, env) else 0) >= m.value
  }

  // ---- Applying one message ----

  /** Balances by currency; None is CELO. */
  type World = map<Option<Address>, Ledger>

  function LedgerIn(w: World, c: Option<Address>): Ledger {
    if c in w then w[c] else map[]
  }

  /** From `w` to `w'` only balances of currency `c` changed. */
  ghost predicate OnlyIn(c: Option<Address>, w: World, w': World) {
    forall d | d != c :: LedgerIn(w', d) == LedgerIn(w, d)
  }

  /** Nonces by account. */
  type Nonces = map<Address, nat>

  function NonceIn(nonces: Nonces, a: Address): nat {
    if a in nonces then nonces[a] else 0
  }

  /** The nonces after a message of `a`, in 64 bits. */
  function Sent(nonces: Nonces, a: Address): Nonces {
    nonces[a := (NonceIn(nonces, a) + 1) % (MAX_UINT64 + 1)]
  }

  class State {
    var ledgers: World
    var nonces: Nonces

    constructor (ledgers: World, nonces: Nonces)
      ensures this.ledgers == ledgers && this.nonces == nonces
    {
      this.ledgers, this.nonces := ledgers, nonces;
    }

    function Of(currency: Option<Address>): Ledger
      reads this`ledgers
    {
      LedgerIn(ledgers, currency)
    }

    method Add(currency: Option<Address>, a: Address, amount: int)
      modifies `ledgers
      ensures ledgers == old(ledgers)[currency := Credit(old(Of(currency)), a, amount)]
      ensures OnlyIn(currency, old(ledgers), ledgers)
      ensures Of(currency) == Credit(old(Of(currency)), a, amount)
      ensures Total(Of(currency)) == old(Total(Of(currency))) + amount
    {
      TotalCredit(Of(currency), a, amount);
      ledgers := ledgers[currency := Credit(Of(currency), a, amount)];
    }
  }

  /** What running the code comes to: gas left, the refund counter, and the balances it leaves. */
  datatype Execution = Execution(gasLeft: nat, refundCounter: nat, ledgers: World, failed: bool)

  datatype Result = Err(error: Error) | Applied(usedGas: nat, failed: bool)

  function Quotient(env: Env): nat {
    if env.espresso() then REFUND_QUOTIENT_EIP3529 else REFUND_QUOTIENT
  }

  class StateTransition {
    const gp: GasPool
    const state: State
    const msg: Message
    const env: Env
    var gas: nat
    var initialGas: nat
    var erc20FeeDebited: int

    constructor (gp: GasPool, state: State, msg: Message, env: Env)
      ensures this.gp == gp && this.state == state && this.msg == msg && this.env == env && gas == 0 && initialGas == 0
    {
      this.gp, this.state, this.msg, this.env := gp, state, msg, env;
      gas, initialGas, erc20FeeDebited := 0, 0, 0;
    }

    function GasUsed(): int
      reads this
    {
      initialGas - gas
    }

    /** Buys the gas of the message from the block and pays for it. */
    method PayFees() returns (err: Option<Error>)
      requires gas == 0
      modifies this, gp, state`ledgers
      ensures err.None? <==>
                env.whitelisted && CanPayFee(msg, env, Balance(old(state.Of(msg.feeCurrency)), msg.from)).None?
                             && old(gp.gas) >= msg.gas && (msg.feeCurrency.None? || env.debitOk)
      ensures err.Some? ==>
                err.value in {NonWhitelistedFeeCurrency, BalanceUnknown, DenominatedLowMaxFee, InsufficientFunds,
                              GasLimitReached, DebitFailed}
      ensures err.Some? && err != Some(DebitFailed) ==> gp.gas == old(gp.gas) && state.ledgers == old(state.ledgers)
      ensures OnlyIn(msg.feeCurrency, old(state.ledgers), state.ledgers)
      ensures err.None? ==>
                gp.gas == old(gp.gas) - msg.gas && initialGas == gas == msg.gas
                  && (msg.feeCurrency.Some? ==> erc20FeeDebited == Debited(msg, env))
      ensures err.None? ==>
                state.Of(msg.feeCurrency) == Credit(old(state.Of(msg.feeCurrency)), msg.from, 0 - Debited(msg, env))
      ensures err.None? ==>
                Total(state.Of(msg.feeCurrency)) == old(Total(state.Of(msg.feeCurrency))) - Debited(msg, env)
    {
      if !env.whitelisted {
        return Some(NonWhitelistedFeeCurrency);
      }
      err := CanPayFee(msg, env, Balance(state.Of(msg.feeCurrency), msg.from));
      if err.Some? {
        return err;
      }
      var ok := gp.SubGas(msg.gas);
      if !ok {
        return Some(GasLimitReached);
      }
      initialGas := msg.gas;
      gas := gas + msg.gas;
      err := DebitFee();
    }

    method DebitFee() returns (err: Option<Error>)
      modifies `erc20FeeDebited, state`ledgers
      ensures OnlyIn(msg.feeCurrency, old(state.ledgers), state.ledgers)
      ensures err == if msg.feeCurrency.Some? && !env.debitOk then Some(DebitFailed) else None
      ensures msg.feeCurrency.Some? ==> erc20FeeDebited == Debited(msg, env)
      ensures err.None? ==>
                state.Of(msg.feeCurrency) == Credit(old(state.Of(msg.feeCurrency)), msg.from, 0 - Debited(msg, env))
      ensures err.None? ==>
                Total(state.Of(msg.feeCurrency)) == old(Total(state.Of(msg.feeCurrency))) - Debited(msg, env)
      ensures err.Some? ==> state.ledgers == old(state.ledgers)
    {
      var effectiveFee := msg.gas * msg.gasPrice;
      if msg.gatewayFeeRecipient.Some? {
        effectiveFee := effectiveFee + msg.gatewayFee;
      }
      if msg.feeCurrency.None? {
        state.Add(None, msg.from, -effectiveFee);
        return None;
      }
      if msg.maxFeeInFeeCurrency.Some? {
        erc20FeeDebited := FromBase(env.rate, effectiveFee);
      } else {
        erc20FeeDebited := effectiveFee;
      }
      if !env.debitOk {
        return Some(DebitFailed);
      }
      state.Add(msg.feeCurrency, msg.from, -erc20FeeDebited);
      return None;
    }

    /** Applies the refund counter, capped to a part of the gas used, and gives the gas left back to the block. */
    method RefundGas(quotient: nat, refundCounter: nat)
      requires quotient > 0 && gas <= initialGas && gp.gas + initialGas <= MAX_UINT64
      modifies `gas, gp
      ensures old(gas) <= gas <= initialGas && gp.gas == old(gp.gas) + gas
      ensures gas - old(gas) == Refund(old(GasUsed()), quotient, refundCounter)
      ensures var refund := gas - old(gas);
              && refund <= refundCounter && refund * quotient <= old(GasUsed())
              && (refund == refundCounter || (refund + 1) * quotient > old(GasUsed()))
    {
      RefundMeans(GasUsed(), quotient, refundCounter);
      RefundWithin(GasUsed(), quotient, refundCounter);
      var refund := GasUsed() / quotient;
      if refund > refundCounter {
        refund := refundCounter;
      }
      gas := gas + refund;
      gp.AddGas(gas);
    }

    /** Credits gateway, fee handler, coinbase and sender. */
    method CreditTxFees() returns (err: Option<Error>)
      requires initialGas == msg.gas && gas <= initialGas
      requires msg.feeCurrency.Some? ==> erc20FeeDebited == Debited(msg, env)
      requires msg.maxFeeInFeeCurrency.Some? ==> msg.feeCurrency.Some?
      modifies state`ledgers
      ensures OnlyIn(msg.feeCurrency, old(state.ledgers), state.ledgers)
      ensures err == if msg.feeCurrency.Some? && !env.creditOk then Some(CreditFailed) else None
      ensures err.None? ==> forall a :: Balance(state.Of(msg.feeCurrency), a)
                                        == Balance(old(state.Of(msg.feeCurrency)), a)
                                          + Share(msg, env, CreditsFor(msg, env, gas), a)
      ensures msg.feeCurrency.None? ==> Total(state.Of(None)) == old(Total(state.Of(None))) + Debited(msg, env)
      ensures msg.feeCurrency.Some? && err.None? ==>
                Total(state.Of(msg.feeCurrency)) == old(Total(state.Of(msg.feeCurrency)))
                  + CreditsFor(msg, env, gas).Sum()
    {
      var refund := gas * msg.gasPrice;
      var gasUsed := GasUsed();
      var totalTxFee := gasUsed * msg.gasPrice;
      var baseTxFee := gasUsed * env.gasPriceMinimum;
      var tipTxFee := totalTxFee - baseTxFee;
      if msg.maxFeeInFeeCurrency.Some? {
        tipTxFee := Convert(env.rate, tipTxFee);
        baseTxFee := Convert(env.rate, baseTxFee);
        totalTxFee := tipTxFee + baseTxFee;
        refund := erc20FeeDebited - totalTxFee;
      }
      if env.feeHandler.None? {
        refund := refund + baseTxFee;
        baseTxFee := 0;
      }
      ghost var credits := CreditsFor(msg, env, gas);
      assert credits == Credits(msg.gatewayFee, baseTxFee, tipTxFee, refund);
      hide CreditsFor, Debited;
      if msg.feeCurrency.None? {
        CreditsMatchDebit(msg, env, gas);
        CreditNative(refund, tipTxFee, baseTxFee);
        return None;
      }
      if !env.creditOk {
        return Some(CreditFailed);
      }
      CreditToken(refund, tipTxFee, msg.gatewayFee, baseTxFee);
      return None;
    }

    /** Credits in CELO; the gateway fee and the base part only go to a recipient that is set. */
    method CreditNative(refund: int, tip: int, base: int)
      requires msg.feeCurrency.None? && (env.feeHandler.None? ==> base == 0)
      modifies state`ledgers
      ensures OnlyIn(None, old(state.ledgers), state.ledgers)
      ensures Total(state.Of(None)) == old(Total(state.Of(None))) + refund + tip + base + GatewayPart(msg)
      ensures forall a ::
                Balance(state.Of(None), a) == Balance(old(state.Of(None)), a)
                  + Share(msg, env, Credits(msg.gatewayFee, base, tip, refund), a)
    {
      hide Total, Credit, Balance;
      ghost var before := state.Of(None);
      if msg.gatewayFeeRecipient.Some? {
        state.Add(None, msg.gatewayFeeRecipient.value, msg.gatewayFee);
      }
      if env.feeHandler.Some? {
        state.Add(None, env.feeHandler.value, base);
      }
      state.Add(None, env.coinbase, tip);
      state.Add(None, msg.from, refund);
      forall a
        ensures Balance(state.Of(None), a)
                == Balance(before, a) + Share(msg, env, Credits(msg.gatewayFee, base, tip, refund), a)
      {
        SharesOut(before, msg, env, Credits(msg.gatewayFee, base, tip, refund), a);
      }
    }

    /** The fee currency's contract credits its four recipients; an unset recipient is the zero address. */
    method CreditToken(refund: int, tip: int, gatewayFee: int, base: int)
      requires msg.feeCurrency.Some?
      modifies state`ledgers
      ensures OnlyIn(msg.feeCurrency, old(state.ledgers), state.ledgers)
      ensures Total(state.Of(msg.feeCurrency))
              == old(Total(state.Of(msg.feeCurrency))) + refund + tip + gatewayFee + base
      ensures forall a :: Balance(state.Of(msg.feeCurrency), a)
                          == Balance(old(state.Of(msg.feeCurrency)), a)
                            + Share(msg, env, Credits(gatewayFee, base, tip, refund), a)
    {
      hide Total, Credit, Balance;
      ghost var before := state.Of(msg.feeCurrency);
      var gateway := if msg.gatewayFeeRecipient.Some? then msg.gatewayFeeRecipient.value else ZERO_ADDRESS;
      var handler := if env.feeHandler.Some? then env.feeHandler.value else ZERO_ADDRESS;
      state.Add(msg.feeCurrency, gateway, gatewayFee);
      state.Add(msg.feeCurrency, handler, base);
      state.Add(msg.feeCurrency, env.coinbase, tip);
      state.Add(msg.feeCurrency, msg.from, refund);
      forall a
        ensures Balance(state.Of(msg.feeCurrency), a)
                == Balance(before, a) + Share(msg, env, Credits(gatewayFee, base, tip, refund), a)
      {
        SharesOut(before, msg, env, Credits(gatewayFee, base, tip, refund), a);
      }
    }

    /** Fork rules. */
    method Admit() returns (err: Option<Error>)
      ensures err.None? <==> Admissible(msg, env)
      ensures err.Some? ==> err.value in {EthCompatibleNotSupported, EthCompatibleIsntCompatible, GatewayFeeDeprecated,
                                          TxTypeNotSupported, DenominatedNoCurrency, RateUnknown}
      ensures err == Some(EthCompatibleNotSupported) <==> msg.ethCompatible && !env.forks.donut
      ensures err == Some(EthCompatibleIsntCompatible) <==>
                && msg.ethCompatible && env.forks.donut
                && (msg.feeCurrency.Some? || msg.gatewayFeeRecipient.Some? || msg.gatewayFee != 0)
      ensures err == Some(GatewayFeeDeprecated) <==>
                && !msg.ethCompatible && env.forks.gingerbread
                && (msg.gatewayFeeRecipient.Some? || msg.gatewayFee != 0)
      ensures err == Some(TxTypeNotSupported) ==> msg.maxFeeInFeeCurrency.Some? && !env.forks.hFork
      ensures err == Some(DenominatedNoCurrency) ==> msg.maxFeeInFeeCurrency.Some? && msg.feeCurrency.None?
      ensures err == Some(RateUnknown) ==> msg.maxFeeInFeeCurrency.Some? && !env.rateKnown
      ensures err.None? && msg.maxFeeInFeeCurrency.Some? ==>
                env.forks.hFork && msg.feeCurrency.Some? && env.rateKnown
    {
      if msg.ethCompatible && !env.forks.donut {
        return Some(EthCompatibleNotSupported);
      }
      if msg.ethCompatible && (msg.feeCurrency.Some? || msg.GatewaySet()) {
        return Some(EthCompatibleIsntCompatible);
      }
      if env.forks.gingerbread && msg.GatewaySet() {
        return Some(GatewayFeeDeprecated);
      }
      if !env.forks.hFork && msg.maxFeeInFeeCurrency.Some? {
        return Some(TxTypeNotSupported);
      }
      if msg.feeCurrency.None? && msg.maxFeeInFeeCurrency.Some? {
        return Some(DenominatedNoCurrency);
      }
      if msg.maxFeeInFeeCurrency.Some? && !env.rateKnown {
        return Some(RateUnknown);
      }
      return None;
    }

    /** Checks the nonce, and the prices against each other and the minimum. */
    method PreCheck() returns (err: Option<Error>)
      ensures err.None? <==> NonceOk(msg, state.nonces) && PricesOk(msg, env)
      ensures err.Some? ==> err.value in {NonceTooHigh, NonceTooLow, FeeCapVeryHigh, TipVeryHigh, TipAboveFeeCap,
                                          FeeCapTooLow, GasPriceBelowMinimum}
      ensures err == Some(NonceTooHigh) <==> !msg.fake && msg.nonce > NonceIn(state.nonces, msg.from)
      ensures err == Some(NonceTooLow) <==> !msg.fake && msg.nonce < NonceIn(state.nonces, msg.from)
      ensures var nonceOk := msg.fake || msg.nonce == NonceIn(state.nonces, msg.from);
              var priced := nonceOk && env.forks.espresso
                            && !(env.noBaseFee && msg.gasFeeCap == 0 && msg.gasTipCap == 0);
              && (err == Some(GasPriceBelowMinimum) <==>
                    nonceOk && !env.forks.espresso && !env.noBaseFee && msg.gasPrice < env.gasPriceMinimum)
              && (err == Some(FeeCapVeryHigh) <==> priced && msg.gasFeeCap > MAX_UINT256)
              && (err == Some(TipVeryHigh) <==> priced && msg.gasFeeCap <= MAX_UINT256 < msg.gasTipCap)
              && (err == Some(TipAboveFeeCap) <==> priced && msg.gasFeeCap < msg.gasTipCap <= MAX_UINT256)
              && (err == Some(FeeCapTooLow) <==>
                    priced && msg.gasTipCap <= msg.gasFeeCap <= MAX_UINT256 && msg.gasFeeCap < env.gasPriceMinimum)
    {
      if !msg.fake {
        var nonce := NonceIn(state.nonces, msg.from);
        if nonce < msg.nonce {
          return Some(NonceTooHigh);
        }
        if nonce > msg.nonce {
          return Some(NonceTooLow);
        }
      }
      if env.espresso() {
        if !env.noBaseFee || msg.gasFeeCap > 0 || msg.gasTipCap > 0 {
          if msg.gasFeeCap > MAX_UINT256 {
            return Some(FeeCapVeryHigh);
          }
          if msg.gasTipCap > MAX_UINT256 {
            return Some(TipVeryHigh);
          }
          if msg.gasFeeCap < msg.gasTipCap {
            return Some(TipAboveFeeCap);
          }
          if msg.gasFeeCap < env.gasPriceMinimum {
            return Some(FeeCapTooLow);
          }
        }
      } else if !env.noBaseFee && msg.gasPrice < env.gasPriceMinimum {
        return Some(GasPriceBelowMinimum);
      }
      return None;
    }

    /** Checks the message and buys its gas, of which the intrinsic part is spent at once. */
    method BuyGas(intrinsic: nat) returns (err: Option<Error>)
      requires gas == 0
      modifies this, gp, state`ledgers
      ensures err.None? <==>
                && Admissible(msg, env) && NonceOk(msg, state.nonces) && PricesOk(msg, env)
                && intrinsic <= msg.gas <= old(gp.gas)
                && env.whitelisted && CanPayFee(msg, env, Balance(old(state.Of(msg.feeCurrency)), msg.from)).None?
                && (msg.feeCurrency.Some? ==> env.debitOk)
      ensures err.Some? && err != Some(DebitFailed) ==> gp.gas == old(gp.gas) && state.ledgers == old(state.ledgers)
      ensures err != Some(InsufficientFundsForTransfer)
      ensures OnlyIn(msg.feeCurrency, old(state.ledgers), state.ledgers)
      ensures err.None? ==>
                && gp.gas == old(gp.gas) - msg.gas && initialGas == msg.gas && gas == msg.gas - intrinsic
                && (msg.feeCurrency.Some? ==> erc20FeeDebited == Debited(msg, env))
                && state.Of(msg.feeCurrency) == Credit(old(state.Of(msg.feeCurrency)), msg.from, 0 - Debited(msg, env))
                && Total(state.Of(msg.feeCurrency)) == old(Total(state.Of(msg.feeCurrency))) - Debited(msg, env)
                && (msg.maxFeeInFeeCurrency.Some? ==> msg.feeCurrency.Some?)
    {
      hide Debited, Total, CanPayFee, Credit, Balance, PricesOk, NonceOk;
      err := Admit();
      if err.Some? {
        return;
      }
      err := PreCheck();
      if err.Some? {
        return;
      }
      if intrinsic > msg.gas {
        return Some(IntrinsicGas);
      }
      err := PayFees();
      if err.Some? {
        return;
      }
      gas := gas - intrinsic;
    }

    /** Applies the message: pays, moves on the sender's nonce, runs the code, refunds and credits. `paid` and `exec`
        are the balances the code starts with and what it comes to. */
    method TransitionDb(intrinsic: nat, run: (World, nat) -> Execution)
      returns (r: Result, ghost paid: World, ghost exec: Execution)
      requires gas == 0 && gp.gas <= MAX_UINT64 && forall l, g :: run(l, g).gasLeft <= g
      modifies this, gp, state
      ensures r.Applied? <==> Applies(msg, env, intrinsic, old(gp.gas), old(state.ledgers), old(state.nonces))
      ensures r.Applied? ==> state.nonces == Sent(old(state.nonces), msg.from)
      ensures r.Applied? ==> exec == run(paid, msg.gas - intrinsic)
      ensures r.Applied? ==>
                var spent := msg.gas - exec.gasLeft;
                && r.usedGas == spent - Refund(spent, Quotient(env), exec.refundCounter)
                && spent - spent / Quotient(env) <= r.usedGas <= spent <= msg.gas
                && gp.gas == old(gp.gas) - r.usedGas && r.failed == exec.failed
      ensures r.Applied? ==>
                var spent, quotient := msg.gas - exec.gasLeft, if env.forks.espresso then 5 else 2;
                var refund := spent - r.usedGas;
                && refund <= exec.refundCounter && refund * quotient <= spent
                && (refund == exec.refundCounter || (refund + 1) * quotient > spent)
      ensures r.Applied? ==>
                msg.value == 0 || msg.value <= Balance(LedgerIn(paid, None), msg.from)
      ensures r == Err(InsufficientFundsForTransfer) ==>
                msg.value > Balance(state.Of(None), msg.from)
      ensures r.Applied? ==>
                Total(state.Of(msg.feeCurrency)) - old(Total(state.Of(msg.feeCurrency)))
                == Total(LedgerIn(exec.ledgers, msg.feeCurrency)) - Total(LedgerIn(paid, msg.feeCurrency))
                   + if msg.feeCurrency.None? then 0 else Unpaid(msg)
      ensures r.Applied? ==>
                OnlyIn(msg.feeCurrency, old(state.ledgers), paid)
                  && OnlyIn(msg.feeCurrency, exec.ledgers, state.ledgers)
      ensures r.Applied? ==>
                && LedgerIn(paid, msg.feeCurrency) == Credit(LedgerIn(old(state.ledgers), msg.feeCurrency), msg.from,
                                                             0 - Debited(msg, env))
                && forall a :: Balance(state.Of(msg.feeCurrency), a)
                               == Balance(LedgerIn(exec.ledgers, msg.feeCurrency), a)
                                 + Share(msg, env, CreditsFor(msg, env, msg.gas - r.usedGas), a)
      ensures r.Err? && r.error != DebitFailed && r.error != InsufficientFundsForTransfer && r.error != CreditFailed ==>
                gp.gas == old(gp.gas) && state.ledgers == old(state.ledgers)
      ensures r.Err? && r.error != CreditFailed ==> state.nonces == old(state.nonces)
      ensures r == Err(InsufficientFundsForTransfer) && env.espresso() && msg.feeCurrency.None? ==>
                msg.gasPrice > msg.gasFeeCap
    {
      hide CreditsFor, Debited, Share, Total, Refund, CanPayFee, Credit, Balance, Admissible, PricesOk, NonceOk, Sent,
           OnlyIn;
      paid, exec := map[], Execution(0, 0, map[], false);
      var err := BuyGas(intrinsic);
      if err.Some? {
        return Err(err.value), paid, exec;
      }
      BalanceLeft(msg, env, old(state.ledgers), state.ledgers);
      if msg.value > 0 && Balance(state.Of(None), msg.from) < msg.value {
        if env.espresso() && msg.feeCurrency.None? && msg.gasPrice <= msg.gasFeeCap {
          PayableCoversTransfer(msg, env, Balance(old(state.Of(None)), msg.from));
        }
        return Err(InsufficientFundsForTransfer), paid, exec;
      }
      paid := state.ledgers;
      r, exec := Execute(run);
      RefundMeans(msg.gas - exec.gasLeft, Quotient(env), exec.refundCounter);
    }

    /** Moves on the sender's nonce, runs the code and settles. */
    method Execute(run: (World, nat) -> Execution) returns (r: Result, ghost exec: Execution)
      requires initialGas == msg.gas && gas <= msg.gas && gp.gas + msg.gas <= MAX_UINT64
      requires forall l, g :: run(l, g).gasLeft <= g
      requires msg.feeCurrency.Some? ==> erc20FeeDebited == Debited(msg, env)
      requires msg.maxFeeInFeeCurrency.Some? ==> msg.feeCurrency.Some?
      modifies `gas, gp, state
      ensures exec == run(old(state.ledgers), old(gas)) && exec.gasLeft <= msg.gas
      ensures state.nonces == Sent(old(state.nonces), msg.from)
      ensures r.Err? ==> r.error == CreditFailed
      ensures OnlyIn(msg.feeCurrency, exec.ledgers, state.ledgers)
      ensures r.Applied? <==> msg.feeCurrency.None? || env.creditOk
      ensures r.Applied? ==>
                var spent := msg.gas - exec.gasLeft;
                && r.usedGas == spent - Refund(spent, Quotient(env), exec.refundCounter)
                && spent - spent / Quotient(env) <= r.usedGas <= spent <= msg.gas
                && gp.gas == old(gp.gas) + msg.gas - r.usedGas && r.failed == exec.failed
      ensures r.Applied? ==>
                Total(state.Of(msg.feeCurrency))
                == Total(LedgerIn(exec.ledgers, msg.feeCurrency)) + Debited(msg, env)
                   + if msg.feeCurrency.None? then 0 else Unpaid(msg)
      ensures r.Applied? ==>
                forall a :: Balance(state.Of(msg.feeCurrency), a)
                            == Balance(LedgerIn(exec.ledgers, msg.feeCurrency), a)
                              + Share(msg, env, CreditsFor(msg, env, msg.gas - r.usedGas), a)
    {
      hide CreditsFor, Debited, Share, Total, Refund, Balance, Sent, OnlyIn;
      state.nonces := Sent(state.nonces, msg.from);
      var outcome := run(state.ledgers, gas);
      exec := outcome;
      r := Settle(outcome);
    }

    /** After the code has run: refunds gas and credits the fees. */
    method Settle(outcome: Execution) returns (r: Result)
      requires initialGas == msg.gas && outcome.gasLeft <= msg.gas && gp.gas + msg.gas <= MAX_UINT64
      requires msg.feeCurrency.Some? ==> erc20FeeDebited == Debited(msg, env)
      requires msg.maxFeeInFeeCurrency.Some? ==> msg.feeCurrency.Some?
      modifies `gas, gp, state`ledgers
      ensures r.Err? ==> r.error == CreditFailed
      ensures OnlyIn(msg.feeCurrency, outcome.ledgers, state.ledgers)
      ensures r.Applied? ==>
                var spent := msg.gas - outcome.gasLeft;
                && r.usedGas == spent - Refund(spent, Quotient(env), outcome.refundCounter)
                && spent - spent / Quotient(env) <= r.usedGas <= spent
                && gp.gas == old(gp.gas) + msg.gas - r.usedGas && r.failed == outcome.failed
      ensures r.Applied? <==> msg.feeCurrency.None? || env.creditOk
      ensures r.Applied? ==>
                Total(state.Of(msg.feeCurrency))
                == Total(LedgerIn(outcome.ledgers, msg.feeCurrency)) + Debited(msg, env)
                   + if msg.feeCurrency.None? then 0 else Unpaid(msg)
      ensures r.Applied? ==>
                forall a :: Balance(state.Of(msg.feeCurrency), a)
                            == Balance(LedgerIn(outcome.ledgers, msg.feeCurrency), a)
                              + Share(msg, env, CreditsFor(msg, env, msg.gas - r.usedGas), a)
    {
      hide CreditsFor, Debited, Total;
      gas := outcome.gasLeft;
      state.ledgers := outcome.ledgers;
      RefundWithin(GasUsed(), Quotient(env), outcome.refundCounter);
      RefundGas(if env.espresso() then REFUND_QUOTIENT_EIP3529 else REFUND_QUOTIENT, outcome.refundCounter);
      var err := CreditTxFees();
      CreditsMatchDebit(msg, env, gas);
      if err.Some? {
        return Err(err.value);
      }
      return Applied(GasUsed(), outcome.failed);
    }
  }

  /** The CELO the sender has left once the fee is paid. */
  lemma BalanceLeft(m: Message, env: Env, w: World, w': World)
    requires OnlyIn(m.feeCurrency, w, w')
    requires LedgerIn(w', m.feeCurrency) == Credit(LedgerIn(w, m.feeCurrency), m.from, 0 - Debited(m, env))
    ensures Balance(LedgerIn(w', None), m.from)
            == Balance(LedgerIn(w, None), m.from) - if m.feeCurrency.None? then Debited(m, env) else 0
  {
    hide Debited;
  }

  /** The refund: the counter, at most the gas used over the quotient. */
  function Refund(used: nat, quotient: nat, counter: nat): nat
    requires quotient > 0
  {
    if used / quotient > counter then counter else used / quotient
  }

  /** The refund is within the counter and the part of the gas used, and one more would not be. */
  lemma RefundMeans(used: nat, quotient: nat, counter: nat)
    requires quotient > 0
    ensures var refund := Refund(used, quotient, counter);
            && refund <= counter && refund * quotient <= used
            && (refund == counter || (refund + 1) * quotient > used)
  {
    DivBounds(used, quotient);
    LessOrEqualByMul(Refund(used, quotient, counter), used / quotient, quotient);
  }

  lemma RefundWithin(used: nat, quotient: nat, counter: nat)
    requires quotient > 0
    ensures Refund(used, quotient, counter) <= used / quotient <= used
  {
    DivBounds(used, quotient);
    NonNegativeDiv(used, quotient);
    SmallerFactor(used / quotient, quotient, used);
  }

  lemma SmallerFactor(a: nat, q: nat, n: nat)
    requires q > 0 && a * q <= n
    ensures a <= n
  {
    MulMono(a, 1, q);
  }

  const ZERO_ADDRESS: Address := 0

  /** In CELO an unset recipient gets nothing; a fee currency's contract is given the zero address instead. */
  function Recipient(m: Message, who: Option<Address>): Option<Address> {
    if who.None? && m.feeCurrency.Some? then Some(ZERO_ADDRESS) else who
  }

  function CreditIf(l: Ledger, who: Option<Address>, amount: int): Ledger {
    if who.Some? then Credit(l, who.value, amount) else l
  }

  lemma CreditIfBalance(l: Ledger, who: Option<Address>, amount: int, a: Address)
    ensures Balance(CreditIf(l, who, amount), a) == Balance(l, a) + if who == Some(a) then amount else 0
  {
  }

  lemma SharesOut(l: Ledger, m: Message, env: Env, c: Credits, a: Address)
    ensures Balance(CreditIf(CreditIf(CreditIf(CreditIf(l, Recipient(m, m.gatewayFeeRecipient), c.gateway),
                                               Recipient(m, env.feeHandler), c.base),
                                      Some(env.coinbase), c.tip), Some(m.from), c.refund), a)
            == Balance(l, a) + Share(m, env, c, a)
  {
    hide Balance, CreditIf;
    var l1 := CreditIf(l, Recipient(m, m.gatewayFeeRecipient), c.gateway);
    var l2 := CreditIf(l1, Recipient(m, env.feeHandler), c.base);
    var l3 := CreditIf(l2, Some(env.coinbase), c.tip);
    CreditIfBalance(l, Recipient(m, m.gatewayFeeRecipient), c.gateway, a);
    CreditIfBalance(l1, Recipient(m, env.feeHandler), c.base, a);
    CreditIfBalance(l2, Some(env.coinbase), c.tip, a);
    CreditIfBalance(l3, Some(m.from), c.refund, a);
  }

  /** What an account gets out of the fee in all its roles. */
  function Share(m: Message, env: Env, c: Credits, a: Address): int {
    (if Recipient(m, m.gatewayFeeRecipient) == Some(a) then c.gateway else 0)
      + (if Recipient(m, env.feeHandler) == Some(a) then c.base else 0)
    + (if env.coinbase == a then c.tip else 0) + (if m.from == a then c.refund else 0)
  }

  /** The sender, the coinbase, the fee handler, the gateway's recipient and the zero address are all different. */
  ghost predicate DifferentParties(m: Message, env: Env) {
    && |{ZERO_ADDRESS, m.from, env.coinbase}| == 3
    && (m.gatewayFeeRecipient.Some? ==> m.gatewayFeeRecipient.value !in {ZERO_ADDRESS, m.from, env.coinbase})
    && (env.feeHandler.Some? ==>
          env.feeHandler.value !in {ZERO_ADDRESS, m.from, env.coinbase} && env.feeHandler != m.gatewayFeeRecipient)
  }

  /** Who gets what. For the gas used, the coinbase gets what is paid above the minimum and the handler the minimum, or
      the sender if there is no handler; for the gas left the sender gets the price back; the recipient gets the gateway
      fee, or the zero address if a fee currency's contract is given none; and no one else gets anything. In a
      denominated message the first two are converted, rounding down, and the sender gets the rest. */
  lemma FeeShares(m: Message, env: Env, gasLeft: nat)
    requires gasLeft <= m.gas && DifferentParties(m, env)
    ensures var used := m.gas - gasLeft;
            var c := CreditsFor(m, env, gasLeft);
            var tip, base := Share(m, env, c, env.coinbase),
                             if env.feeHandler.Some? then Share(m, env, c, env.feeHandler.value) else 0;
            && (m.gatewayFeeRecipient.Some? ==> Share(m, env, c, m.gatewayFeeRecipient.value) == m.gatewayFee)
            && if m.maxFeeInFeeCurrency.None? then
                 && tip == used * m.gasPrice - used * env.gasPriceMinimum
                 && (env.feeHandler.Some? ==> base == used * env.gasPriceMinimum)
                 && Share(m, env, c, m.from)
                    == gasLeft * m.gasPrice + if env.feeHandler.None? then used * env.gasPriceMinimum else 0
               else
                 var n, d := env.rate.numerator, env.rate.denominator;
                 && tip * d <= (used * m.gasPrice - used * env.gasPriceMinimum) * n < (tip + 1) * d
                 && (env.feeHandler.Some? ==> base * d <= used * env.gasPriceMinimum * n < (base + 1) * d)
                 && Share(m, env, c, m.from) == Debited(m, env) - tip - base
    ensures var c := CreditsFor(m, env, gasLeft);
            && Share(m, env, c, ZERO_ADDRESS)
               == (if m.feeCurrency.Some? && m.gatewayFeeRecipient.None? then m.gatewayFee else 0)
            && forall a |
                 a !in {ZERO_ADDRESS, m.from, env.coinbase} && Some(a) !in {m.gatewayFeeRecipient, env.feeHandler} ::
                 Share(m, env, c, a) == 0
  {
    hide Debited;
    var used := m.gas - gasLeft;
    DivBounds((used * m.gasPrice - used * env.gasPriceMinimum) * env.rate.numerator, env.rate.denominator);
    DivBounds(used * env.gasPriceMinimum * env.rate.numerator, env.rate.denominator);
  }

  // ---- A block ----

  datatype Tx = Tx(msg: Message, env: Env, intrinsic: nat, run: (World, nat) -> Execution)

  datatype Receipt = Receipt(gasUsed: nat, cumulativeGasUsed: nat, failed: bool)

  /** The nonces after the transactions of a block. */
  function NoncesAfter(nonces: Nonces, txs: seq<Tx>): Nonces {
    if txs == [] then nonces else Sent(NoncesAfter(nonces, txs[..|txs| - 1]), txs[|txs| - 1].msg.from)
  }

  /** How many of `txs` an account sent. */
  function CountFrom(txs: seq<Tx>, a: Address): nat {
    if txs == [] then 0 else CountFrom(txs[..|txs| - 1], a) + if txs[|txs| - 1].msg.from == a then 1 else 0
  }

  lemma {:induction false} NonceCounts(nonces: Nonces, txs: seq<Tx>, a: Address)
    requires NonceIn(nonces, a) <= MAX_UINT64
    ensures NonceIn(NoncesAfter(nonces, txs), a) == (NonceIn(nonces, a) + CountFrom(txs, a)) % (MAX_UINT64 + 1)
    decreases |txs|
  {
    if txs != [] {
      NonceCounts(nonces, txs[..|txs| - 1], a);
      WrapTwice(NonceIn(nonces, a) + CountFrom(txs[..|txs| - 1], a), 1);
    }
  }

  ghost predicate NeverReturnsMoreGas(tx: Tx) {
    forall l, g :: tx.run(l, g).gasLeft <= g
  }

  function SumUsed(receipts: seq<Receipt>): nat {
    if receipts == [] then 0 else SumUsed(receipts[..|receipts| - 1]) + receipts[|receipts| - 1].gasUsed
  }

  /** Applying `tx` to `before` gives `after`, using and burning exactly what running its code on `paid` comes to. */
  ghost predicate AppliedTo(tx: Tx, before: World, after: World, paid: World, usedGas: nat, failed: bool) {
    var m, c := tx.msg, tx.msg.feeCurrency;
    tx.intrinsic <= m.gas &&
    var exec := tx.run(paid, m.gas - tx.intrinsic);
    exec.gasLeft <= m.gas &&
    var spent := m.gas - exec.gasLeft;
    && usedGas == spent - Refund(spent, Quotient(tx.env), exec.refundCounter) && usedGas <= m.gas
    && failed == exec.failed
    && OnlyIn(c, before, paid) && LedgerIn(paid, c) == Credit(LedgerIn(before, c), m.from, 0 - Debited(m, tx.env))
    && OnlyIn(c, exec.ledgers, after)
    && forall a ::
         Balance(LedgerIn(after, c), a) == Balance(LedgerIn(exec.ledgers, c), a)
           + Share(m, tx.env, CreditsFor(m, tx.env, m.gas - usedGas), a)
  }

  /** What is known of each transaction: the balances before and after it, and those its code started with. */
  datatype Trace = Trace(before: World, after: World, paid: World)

  /** Receipt `i` is that of transaction `i`, which could be applied to the balances so far within the gas the earlier
      ones left, and was; it carries the sum of the gas used up to it. */
  ghost predicate ReceiptOk(limit: nat, start: World, nonces: Nonces, txs: seq<Tx>, receipts: seq<Receipt>,
                            traces: seq<Trace>, i: nat)
    requires i < |receipts| == |traces| <= |txs|
  {
    && traces[i].before == (if i == 0 then start else traces[i - 1].after)
    && Applies(txs[i].msg, txs[i].env, txs[i].intrinsic, limit - SumUsed(receipts[..i]), traces[i].before,
               NoncesAfter(nonces, txs[..i]))
    && AppliedTo(txs[i], traces[i].before, traces[i].after, traces[i].paid, receipts[i].gasUsed, receipts[i].failed)
    && receipts[i].cumulativeGasUsed == SumUsed(receipts[..i + 1]) <= limit
  }

  /** A receipt stays right when others follow it. */
  lemma EarlierReceipt(limit: nat, start: World, nonces: Nonces, txs: seq<Tx>, receipts: seq<Receipt>,
                       traces: seq<Trace>, r: Receipt, t: Trace, i: nat)
    requires i < |receipts| == |traces| < |txs| && ReceiptOk(limit, start, nonces, txs, receipts, traces, i)
    ensures ReceiptOk(limit, start, nonces, txs, receipts + [r], traces + [t], i)
  {
    hide AppliedTo, SumUsed, Applies;
    assert (receipts + [r])[..i + 1] == receipts[..i + 1] && (receipts + [r])[..i] == receipts[..i];
  }

  lemma SumUsedGrows(receipts: seq<Receipt>, r: Receipt)
    ensures SumUsed(receipts + [r]) == SumUsed(receipts) + r.gasUsed
  {
    assert (receipts + [r])[..|receipts|] == receipts;
  }

  ghost predicate NextReceipt(limit: nat, start: World, nonces: Nonces, txs: seq<Tx>, receipts: seq<Receipt>,
                              traces: seq<Trace>, r: Receipt, t: Trace)
  {
    && |receipts| == |traces| < |txs|
    && t.before == Latest(start, traces)
    && Applies(txs[|receipts|].msg, txs[|receipts|].env, txs[|receipts|].intrinsic, limit - SumUsed(receipts), t.before,
               NoncesAfter(nonces, txs[..|receipts|]))
    && AppliedTo(txs[|receipts|], t.before, t.after, t.paid, r.gasUsed, r.failed)
    && r.cumulativeGasUsed == SumUsed(receipts) + r.gasUsed <= limit
  }

  /** The balances after the transactions so far. */
  ghost function Latest(start: World, traces: seq<Trace>): World {
    if traces == [] then start else traces[|traces| - 1].after
  }

  lemma OneMoreReceipt(limit: nat, start: World, nonces: Nonces, txs: seq<Tx>, receipts: seq<Receipt>,
                       traces: seq<Trace>, r: Receipt, t: Trace)
    requires |receipts| == |traces|
    requires NextReceipt(limit, start, nonces, txs, receipts, traces, r, t)
    requires forall i: nat | i < |receipts| :: ReceiptOk(limit, start, nonces, txs, receipts, traces, i)
    ensures SumUsed(receipts + [r]) == r.cumulativeGasUsed
    ensures forall i: nat | i < |receipts| + 1 :: ReceiptOk(limit, start, nonces, txs, receipts + [r], traces + [t], i)
  {
    hide AppliedTo, ReceiptOk, SumUsed, Applies;
    SumUsedGrows(receipts, r);
    forall i: nat | i < |receipts| + 1
      ensures ReceiptOk(limit, start, nonces, txs, receipts + [r], traces + [t], i)
    {
      if i < |receipts| {
        EarlierReceipt(limit, start, nonces, txs, receipts, traces, r, t, i);
      } else {
        NewReceipt(limit, start, nonces, txs, receipts, traces, r, t);
      }
    }
  }

  lemma NewReceipt(limit: nat, start: World, nonces: Nonces, txs: seq<Tx>, receipts: seq<Receipt>, traces: seq<Trace>,
                   r: Receipt, t: Trace)
    requires |receipts| == |traces| && NextReceipt(limit, start, nonces, txs, receipts, traces, r, t)
    requires r.cumulativeGasUsed == SumUsed(receipts + [r])
    ensures ReceiptOk(limit, start, nonces, txs, receipts + [r], traces + [t], |receipts|)
  {
    hide AppliedTo, SumUsed, Applies;
    assert (receipts + [r])[..|receipts| + 1] == receipts + [r] && (receipts + [r])[..|receipts|] == receipts;
  }

  /** Applies the transactions of a block one after the other, up to the first that cannot be. `gp` is the gas pool at
      the end. */
  method Process(limit: nat, state: State, txs: seq<Tx>)
    returns (receipts: seq<Receipt>, usedGas: nat, err: Option<Error>, gp: GasPool, ghost traces: seq<Trace>)
    requires limit <= MAX_UINT64 && forall i | 0 <= i < |txs| :: NeverReturnsMoreGas(txs[i])
    modifies state
    ensures fresh(gp) && |traces| == |receipts| <= |txs| && (err.None? <==> |receipts| == |txs|)
    ensures usedGas == SumUsed(receipts) <= limit
    ensures forall i: nat | i < |receipts| ::
              ReceiptOk(limit, old(state.ledgers), old(state.nonces), txs, receipts, traces, i)
    ensures err.None? ==> state.ledgers == Latest(old(state.ledgers), traces) && gp.gas + usedGas == limit
    ensures err.None? ==> state.nonces == NoncesAfter(old(state.nonces), txs)
    ensures err.Some? ==>
              var tx := txs[|receipts|];
              !Applies(tx.msg, tx.env, tx.intrinsic, limit - usedGas, Latest(old(state.ledgers), traces),
                       NoncesAfter(old(state.nonces), txs[..|receipts|]))
  {
    hide ReceiptOk, SumUsed, NeverReturnsMoreGas, AppliedTo, Applies;
    receipts, usedGas, err, traces := [], 0, None, [];
    assert SumUsed([]) == 0 by { NothingUsed(); }
    gp := new GasPool(limit);
    for i := 0 to |txs|
      invariant fresh(gp) && |receipts| == |traces| == i && usedGas == SumUsed(receipts) && gp.gas + usedGas == limit
      invariant forall j: nat | j < i ::
                  ReceiptOk(limit, old(state.ledgers), old(state.nonces), txs, receipts, traces, j)
      invariant state.ledgers == Latest(old(state.ledgers), traces)
      invariant state.nonces == NoncesAfter(old(state.nonces), txs[..i])
    {
      ghost var before := state.ledgers;
      assert txs[..i + 1][..i] == txs[..i];
      var r, paid := ApplyTransaction(gp, state, txs[i]);
      if r.Err? {
        err := Some(r.error);
        return;
      }
      usedGas := usedGas + r.usedGas;
      var receipt := Receipt(r.usedGas, usedGas, r.failed);
      ghost var trace := Trace(before, state.ledgers, paid);
      OneMoreReceipt(limit, old(state.ledgers), old(state.nonces), txs, receipts, traces, receipt, trace);
      receipts, traces := receipts + [receipt], traces + [trace];
    }
    assert txs[..|txs|] == txs;
  }

  /** In a block the transactions of an account carry consecutive nonces, from the one it has before the block on. */
  lemma BlockNonces(limit: nat, start: World, nonces: Nonces, txs: seq<Tx>, receipts: seq<Receipt>, traces: seq<Trace>,
                    i: nat)
    requires i < |receipts| == |traces| <= |txs| && ReceiptOk(limit, start, nonces, txs, receipts, traces, i)
    requires !txs[i].msg.fake && NonceIn(nonces, txs[i].msg.from) <= MAX_UINT64
    ensures var m := txs[i].msg; m.nonce == (NonceIn(nonces, m.from) + CountFrom(txs[..i], m.from)) % (MAX_UINT64 + 1)
  {
    hide Admissible, PricesOk, CanPayFee, Transferable, AppliedTo, SumUsed;
    NonceCounts(nonces, txs[..i], txs[i].msg.from);
  }

  /** So no transaction can be applied twice in a block, unless an account sends more of them than there are nonces. */
  lemma NoneAppliedTwice(limit: nat, start: World, nonces: Nonces, txs: seq<Tx>, receipts: seq<Receipt>,
                         traces: seq<Trace>, i: nat, j: nat)
    requires i < j < |receipts| == |traces| <= |txs| && |txs| <= MAX_UINT64
    requires ReceiptOk(limit, start, nonces, txs, receipts, traces, i)
    requires ReceiptOk(limit, start, nonces, txs, receipts, traces, j)
    requires !txs[i].msg.fake && !txs[j].msg.fake && txs[i].msg.from == txs[j].msg.from
    requires NonceIn(nonces, txs[i].msg.from) <= MAX_UINT64
    ensures txs[i].msg.nonce != txs[j].msg.nonce
  {
    hide ReceiptOk;
    BlockNonces(limit, start, nonces, txs, receipts, traces, i);
    BlockNonces(limit, start, nonces, txs, receipts, traces, j);
    CountGrows(txs, i, j);
    DifferentWrapped(NonceIn(nonces, txs[i].msg.from) + CountFrom(txs[..i], txs[i].msg.from),
                     NonceIn(nonces, txs[i].msg.from) + CountFrom(txs[..j], txs[i].msg.from));
  }

  lemma {:induction false} CountGrows(txs: seq<Tx>, i: nat, j: nat)
    requires i < j <= |txs|
    ensures CountFrom(txs[..i], txs[i].msg.from) < CountFrom(txs[..j], txs[i].msg.from)
    ensures CountFrom(txs[..j], txs[i].msg.from) <= CountFrom(txs[..i], txs[i].msg.from) + (j - i)
    decreases j
  {
    assert txs[..j][..j - 1] == txs[..j - 1] && txs[..j][j - 1] == txs[j - 1];
    if i + 1 < j { CountGrows(txs, i, j - 1); }
  }

  lemma DifferentWrapped(a: nat, b: nat)
    requires a < b <= a + MAX_UINT64
    ensures a % (MAX_UINT64 + 1) != b % (MAX_UINT64 + 1)
  {
  }

  lemma NothingUsed()
    ensures SumUsed([]) == 0
  {
  }

  method ApplyTransaction(gp: GasPool, state: State, tx: Tx) returns (r: Result, ghost paid: World)
    requires gp.gas <= MAX_UINT64 && NeverReturnsMoreGas(tx)
    modifies gp, state
    ensures r.Applied? <==> Applies(tx.msg, tx.env, tx.intrinsic, old(gp.gas), old(state.ledgers), old(state.nonces))
    ensures r.Applied? ==> state.nonces == Sent(old(state.nonces), tx.msg.from)
    ensures r.Applied? ==> AppliedTo(tx, old(state.ledgers), state.ledgers, paid, r.usedGas, r.failed)
    ensures r.Applied? ==> r.usedGas <= tx.msg.gas && gp.gas == old(gp.gas) - r.usedGas
  {
    hide Refund, Credit, Balance, Share, CreditsFor, Debited, Total, CanPayFee, Admissible, PricesOk, NonceOk,
         Transferable;
    var st := new StateTransition(gp, state, tx.msg, tx.env);
    ghost var exec;
    r, paid, exec := st.TransitionDb(tx.intrinsic, tx.run);
  }

  // ---- Intrinsic gas ----

  const TX_GAS := 21000
  const TX_GAS_CONTRACT_CREATION := 53000
  const TX_DATA_ZERO_GAS := 4
  const TX_DATA_NON_ZERO_GAS_FRONTIER := 68
  const TX_DATA_NON_ZERO_GAS_EIP2028 := 16
  const TX_ACCESS_LIST_ADDRESS_GAS := 2400
  const TX_ACCESS_LIST_STORAGE_KEY_GAS := 1900

  function Nonzero(data: seq<bv8>): nat {
    if data == [] then 0 else Nonzero(data[..|data| - 1]) + if data[|data| - 1] != 0 then 1 else 0
  }

  lemma {:induction false} NonzeroWithin(data: seq<bv8>)
    ensures Nonzero(data) <= |data|
    decreases |data|
  {
    if data != [] { NonzeroWithin(data[..|data| - 1]); }
  }

  /** The intrinsic gas without an access list, as a number of any size. */
  function IntrinsicSum(data: seq<bv8>, creation: bool, alternative: Option<nat>, eip2028: bool): int {
    (if creation then TX_GAS_CONTRACT_CREATION else TX_GAS)
    + Nonzero(data) * (if eip2028 then TX_DATA_NON_ZERO_GAS_EIP2028 else TX_DATA_NON_ZERO_GAS_FRONTIER)
    + (|data| - Nonzero(data)) * TX_DATA_ZERO_GAS
    + (if alternative.Some? then alternative.value else 0)
  }

  /** The sum starts at 21000, or 53000 for a creation, with what a fee currency adds; a zero byte adds 4, and any other
      16, or 68 before EIP-2028. */
  lemma IntrinsicByByte(data: seq<bv8>, b: bv8, creation: bool, alternative: Option<nat>, eip2028: bool)
    ensures IntrinsicSum([], creation, alternative, eip2028)
            == (if creation then 53000 else 21000) + if alternative.Some? then alternative.value else 0
    ensures IntrinsicSum(data + [b], creation, alternative, eip2028)
            - IntrinsicSum(data, creation, alternative, eip2028)
            == if b == 0 then 4 else if eip2028 then 16 else 68
  {
    assert (data + [b])[..|data|] == data;
  }

  /** Fails exactly when the sum without the access list does not fit 64 bits; the access list is added without a
      check. */
  method ComputeIntrinsicGas(data: seq<bv8>, accessList: Option<(nat, nat)>, creation: bool, alternative: Option<nat>,
                             eip2028: bool)
    returns (r: Option<nat>)
    requires |data| <= MAX_UINT64 && (alternative.Some? ==> alternative.value <= MAX_UINT64)
    ensures r.None? <==> IntrinsicSum(data, creation, alternative, eip2028) > MAX_UINT64
    ensures r.Some? ==>
              r.value == (IntrinsicSum(data, creation, alternative, eip2028) + AccessGas(accessList)) % (MAX_UINT64 + 1)
    ensures r.Some? && accessList.None? ==> r.value == IntrinsicSum(data, creation, alternative, eip2028)
  {
    var gas: nat := if creation then TX_GAS_CONTRACT_CREATION else TX_GAS;
    NonzeroWithin(data);
    var nonZeroGas := if eip2028 then TX_DATA_NON_ZERO_GAS_EIP2028 else TX_DATA_NON_ZERO_GAS_FRONTIER;
    var withData := AddDataGas(gas, data, nonZeroGas);
    if withData.None? {
      return None;
    }
    gas := withData.value;
    if alternative.Some? {
      if MAX_UINT64 - gas < alternative.value {
        return None;
      }
      gas := gas + alternative.value;
    }
    assert gas == IntrinsicSum(data, creation, alternative, eip2028) <= MAX_UINT64;
    hide IntrinsicSum, AccessGas;
    r := Some(AddAccessList(gas, accessList));
    assert accessList.None? ==> r.value == gas;
  }

  /** Adds the gas of the data, unless the sum does not fit. */
  method AddDataGas(start: nat, data: seq<bv8>, nonZeroGas: nat) returns (r: Option<nat>)
    requires start <= MAX_UINT64 && nonZeroGas > 0
    ensures var sum := start + Nonzero(data) * nonZeroGas + (|data| - Nonzero(data)) * TX_DATA_ZERO_GAS;
            r == if sum > MAX_UINT64 then None else Some(sum)
  {
    NonzeroWithin(data);
    var gas := start;
    if |data| > 0 {
      var nz := CountNonzero(data);
      NonNegative(nz, nonZeroGas);
      GuardExact(MAX_UINT64 - gas, nonZeroGas, nz);
      if (MAX_UINT64 - gas) / nonZeroGas < nz {
        return None;
      }
      gas := gas + nz * nonZeroGas;
      var z := |data| - nz;
      GuardExact(MAX_UINT64 - gas, TX_DATA_ZERO_GAS, z);
      if (MAX_UINT64 - gas) / TX_DATA_ZERO_GAS < z {
        return None;
      }
      gas := gas + z * TX_DATA_ZERO_GAS;
    }
    return Some(gas);
  }

  /** Adds the access list's gas, wrapping around like the two 64-bit additions do. */
  function AddAccessList(gas: nat, accessList: Option<(nat, nat)>): (r: nat)
    requires gas <= MAX_UINT64
    ensures r == (gas + AccessGas(accessList)) % (MAX_UINT64 + 1)
  {
    if accessList.None? then gas
    else
      var addresses := accessList.value.0 * TX_ACCESS_LIST_ADDRESS_GAS;
      var keys := accessList.value.1 * TX_ACCESS_LIST_STORAGE_KEY_GAS;
      WrapTwice(gas + addresses, keys);
      ((gas + addresses) % (MAX_UINT64 + 1) + keys) % (MAX_UINT64 + 1)
  }

  lemma WrapTwice(a: nat, b: nat)
    ensures (a % (MAX_UINT64 + 1) + b) % (MAX_UINT64 + 1) == (a + b) % (MAX_UINT64 + 1)
  {
  }

  /** 2400 for an address of the access list and 1900 for a key, in 64 bits. */
  lemma AccessListMeans(gas: nat, addresses: nat, keys: nat)
    requires gas <= MAX_UINT64
    ensures AddAccessList(gas, None) == gas
    ensures AddAccessList(gas, Some((addresses, keys)))
            == (gas + 2400 * addresses + 1900 * keys) % 0x1_0000_0000_0000_0000
  {
    WrapTwice(gas + addresses * TX_ACCESS_LIST_ADDRESS_GAS, keys * TX_ACCESS_LIST_STORAGE_KEY_GAS);
  }

  method CountNonzero(data: seq<bv8>) returns (nz: nat)
    ensures nz == Nonzero(data)
  {
    nz := 0;
    for i := 0 to |data|
      invariant nz == Nonzero(data[..i])
    {
      assert data[..i + 1][..i] == data[..i];
      if data[i] != 0 {
        nz := nz + 1;
      }
    }
    assert data[..|data|] == data;
  }

  /** The overflow guard: the quotient is too small exactly when the product is too large. */
  lemma GuardExact(room: int, g: nat, n: nat)
    requires g > 0
    ensures room / g < n <==> n * g > room
  {
    DivBounds(room, g);
    if room / g < n {
      LessOrEqualByMul(room / g + 1, n, g);
    } else {
      LessOrEqualByMul(n, room / g, g);
    }
  }

  function AccessGas(accessList: Option<(nat, nat)>): nat {
    if accessList.None? then 0
    else accessList.value.0 * TX_ACCESS_LIST_ADDRESS_GAS + accessList.value.1 * TX_ACCESS_LIST_STORAGE_KEY_GAS
  }
}
