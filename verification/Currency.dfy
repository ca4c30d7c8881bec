/** Exchange rates between CELO (the base) and fee currencies, and comparisons across currencies. */
module Currency {
  import opened Options
  import opened Types

  datatype RateData = RateData(numerator: nat, denominator: nat)

  /** One CELO buys numerator / denominator tokens; both are positive. */
  type Rate = r: RateData | r.numerator > 0 && r.denominator > 0 witness RateData(1, 1)

  function FromBase(r: Rate, amount: nat): nat {
    amount * r.numerator / r.denominator
  }

  function ToBase(r: Rate, amount: nat): nat {
    amount * r.denominator / r.numerator
  }

  lemma DivBounds(a: int, d: nat)
    requires d > 0
    ensures a / d * d <= a < (a / d + 1) * d
  {
  }

  lemma FloorAtMost(a: nat, d: nat, k: int)
    requires d > 0
    ensures a / d <= k <==> a < (k + 1) * d
  {
    DivBounds(a, d);
    if a / d <= k {
      LessOrEqualByMul(a / d + 1, k + 1, d);
    } else {
      LessOrEqualByMul(k + 1, a / d, d);
    }
  }

  /** The result is the largest number of tokens worth no more than the amount. */
  lemma FromBaseRoundsDown(r: Rate, amount: nat)
    ensures FromBase(r, amount) * r.denominator <= amount * r.numerator < (FromBase(r, amount) + 1) * r.denominator
  {
    DivBounds(amount * r.numerator, r.denominator);
  }

  /** And this the largest amount of CELO. */
  lemma ToBaseRoundsDown(r: Rate, amount: nat)
    ensures ToBase(r, amount) * r.numerator <= amount * r.denominator < (ToBase(r, amount) + 1) * r.numerator
  {
    DivBounds(amount * r.denominator, r.numerator);
  }

  /** Changing there and back never gains anything, and `denominator` CELO are `numerator` tokens without a rest. */
  lemma ThereAndBack(r: Rate, amount: nat)
    ensures ToBase(r, FromBase(r, amount)) <= amount && FromBase(r, ToBase(r, amount)) <= amount
    ensures FromBase(r, amount * r.denominator) == amount * r.numerator
    ensures ToBase(r, amount * r.numerator) == amount * r.denominator
  {
    var n, d := r.numerator, r.denominator;
    FromBaseRoundsDown(r, amount);
    ToBaseRoundsDown(r, FromBase(r, amount));
    AtMost(ToBase(r, FromBase(r, amount)), amount, n);
    ToBaseRoundsDown(r, amount);
    FromBaseRoundsDown(r, ToBase(r, amount));
    AtMost(FromBase(r, ToBase(r, amount)), amount, d);
    Whole(amount, n, d);
    Whole(amount, d, n);
  }

  lemma AtMost(a: nat, b: nat, k: nat)
    requires k > 0 && a * k <= b * k
    ensures a <= b
  {
    if a > b { MulLess(b, a, k); }
  }

  lemma MulLess(a: nat, b: nat, k: nat)
    requires k > 0 && a < b
    ensures a * k < b * k
  {
  }

  lemma Whole(a: nat, n: nat, d: nat)
    requires d > 0
    ensures a * d * n / d == a * n
  {
    var x := a * n;
    assert a * d * n == x * d;
    DivBounds(x * d, d);
    var q := x * d / d;
    if q < x { LessOrEqualByMul(q + 1, x, d); }
    if q > x { MulLess(x, q, d); }
  }

  lemma LessOrEqualByMul(x: int, y: int, d: nat)
    requires x <= y
    ensures x * d <= y * d
  {
  }

  /** The context a pool works in: known rates and the floor of the CELO gas price minimum. */
  datatype Context = Context(rates: map<Address, Rate>, priceFloor: nat)

  function ToCELO(ctx: Context, amount: nat, currency: Option<Address>): Option<nat> {
    match currency
    case None => Some(amount)
    case Some(c) => if c in ctx.rates then Some(ToBase(ctx.rates[c], amount)) else None
  }

  function Sign(a: int, b: int): int {
    if a < b then -1 else if a > b then 1 else 0
  }

  predicate Known(ctx: Context, c: Option<Address>) {
    c.Some? ==> c.value in ctx.rates
  }

  function RateOf(ctx: Context, c: Option<Address>): Rate
    requires Known(ctx, c)
  {
    match c
    case None => RateData(1, 1)
    case Some(a) => ctx.rates[a]
  }

  /** CmpValues: compares amounts of possibly different currencies; without a rate it compares the bare numbers. */
  function CmpValues(ctx: Context, v1: int, c1: Option<Address>, v2: int, c2: Option<Address>): int {
    if c1 == c2 || !Known(ctx, c1) || !Known(ctx, c2) then Sign(v1, v2)
    else
      var r1, r2 := RateOf(ctx, c1), RateOf(ctx, c2);
      Sign(v1 * (r1.denominator * r2.numerator), v2 * (r2.denominator * r1.numerator))
  }

  /** The CELO worth of an amount, without rounding. */
  ghost function Worth(ctx: Context, v: int, c: Option<Address>): real
    requires Known(ctx, c)
  {
    var r := RateOf(ctx, c);
    v as real * (r.denominator as real / r.numerator as real)
  }

  /** With known rates, the cross-multiplied comparison orders amounts by worth, so it is transitive. */
  lemma CmpIsWorthOrder(ctx: Context, v1: int, c1: Option<Address>, v2: int, c2: Option<Address>)
    requires Known(ctx, c1) && Known(ctx, c2)
    ensures CmpValues(ctx, v1, c1, v2, c2) < 0 <==> Worth(ctx, v1, c1) < Worth(ctx, v2, c2)
    ensures CmpValues(ctx, v1, c1, v2, c2) > 0 <==> Worth(ctx, v1, c1) > Worth(ctx, v2, c2)
  {
    hide Worth;
    if c1 == c2 {
      SameCurrencyOrder(ctx, v1, v2, c1);
    } else {
      OtherCurrencyOrder(ctx, v1, c1, v2, c2);
    }
  }

  lemma SameCurrencyOrder(ctx: Context, v1: int, v2: int, c: Option<Address>)
    requires Known(ctx, c)
    ensures v1 < v2 <==> Worth(ctx, v1, c) < Worth(ctx, v2, c)
    ensures v1 > v2 <==> Worth(ctx, v1, c) > Worth(ctx, v2, c)
  {
    var r := RateOf(ctx, c);
    PositiveRatio(r.denominator as real, r.numerator as real);
    ScaleOrder(v1 as real, v2 as real, r.denominator as real / r.numerator as real);
  }

  lemma OtherCurrencyOrder(ctx: Context, v1: int, c1: Option<Address>, v2: int, c2: Option<Address>)
    requires Known(ctx, c1) && Known(ctx, c2) && c1 != c2
    ensures CmpValues(ctx, v1, c1, v2, c2) < 0 <==> Worth(ctx, v1, c1) < Worth(ctx, v2, c2)
    ensures CmpValues(ctx, v1, c1, v2, c2) > 0 <==> Worth(ctx, v1, c1) > Worth(ctx, v2, c2)
  {
    var r1, r2 := RateOf(ctx, c1), RateOf(ctx, c2);
    CrossOrder(v1, r1.denominator, r1.numerator, v2, r2.denominator, r2.numerator);
  }

  /** What an amount comes to in CELO is its worth, rounded down. */
  lemma ToCELOIsWorth(ctx: Context, amount: nat, c: Option<Address>)
    ensures ToCELO(ctx, amount, c).Some? <==> Known(ctx, c)
    ensures Known(ctx, c) ==>
              var celo := ToCELO(ctx, amount, c).value;
              celo as real <= Worth(ctx, amount, c) < celo as real + 1.0
  {
    if c.Some? && Known(ctx, c) {
      var r := ctx.rates[c.value];
      ToBaseRoundsDown(r, amount);
      RoundedDown(amount, ToBase(r, amount), r.numerator, r.denominator);
    }
  }

  lemma RoundedDown(amount: nat, celo: nat, n: nat, d: nat)
    requires n > 0 && celo * n <= amount * d < (celo + 1) * n
    ensures celo as real <= amount as real * (d as real / n as real) < celo as real + 1.0
  {
    var w := amount as real * (d as real / n as real);
    assert w * n as real == (amount * d) as real by { RealMul(amount, d); }
    RealMul(celo, n);
    RealMul(celo + 1, n);
    ScaleOrder(w, celo as real, n as real);
    ScaleOrder(w, (celo + 1) as real, n as real);
  }

  lemma PositiveRatio(a: real, b: real)
    requires a > 0.0 && b > 0.0
    ensures a / b > 0.0
  {
  }

  lemma CrossOrder(v1: int, d1: nat, n1: nat, v2: int, d2: nat, n2: nat)
    requires n1 > 0 && n2 > 0
    ensures v1 * (d1 * n2) < v2 * (d2 * n1) <==>
              v1 as real * (d1 as real / n1 as real) < v2 as real * (d2 as real / n2 as real)
    ensures v1 * (d1 * n2) > v2 * (d2 * n1) <==>
              v1 as real * (d1 as real / n1 as real) > v2 as real * (d2 as real / n2 as real)
  {
    RealProduct(v1, d1, n2);
    RealProduct(v2, d2, n1);
    CrossMultiply(v1 as real, d1 as real, n1 as real, v2 as real, d2 as real, n2 as real);
  }

  lemma RealProduct(a: int, b: int, c: int)
    ensures (a * (b * c)) as real == a as real * (b as real * c as real)
  {
    RealMul(b, c);
    RealMul(a, b * c);
  }

  lemma RealMul(a: int, b: int)
    ensures (a * b) as real == a as real * b as real
  {
  }

  lemma ScaleOrder(a: real, b: real, k: real)
    requires k > 0.0
    ensures a < b <==> a * k < b * k
    ensures a > b <==> a * k > b * k
  {
  }

  lemma CrossMultiply(v1: real, d1: real, n1: real, v2: real, d2: real, n2: real)
    requires n1 > 0.0 && n2 > 0.0
    ensures v1 * (d1 * n2) < v2 * (d2 * n1) <==> v1 * (d1 / n1) < v2 * (d2 / n2)
    ensures v1 * (d1 * n2) > v2 * (d2 * n1) <==> v1 * (d1 / n1) > v2 * (d2 / n2)
  {
    var w1, w2 := v1 * (d1 / n1), v2 * (d2 / n2);
    assert w1 * n1 == v1 * d1;
    assert w2 * n2 == v2 * d2;
    calc { v1 * (d1 * n2); (v1 * d1) * n2; w1 * n1 * n2; w1 * (n1 * n2); }
    calc { v2 * (d2 * n1); (v2 * d2) * n1; w2 * n2 * n1; w2 * (n1 * n2); }
    ScaleOrder(w1, w2, n1 * n2);
  }
}
