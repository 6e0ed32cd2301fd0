/** Asset exchange arithmetic (exchange/manager.go, exchange/util.go). */
module Exchange {
  import opened Common

  const MAX_INT64: int := 0x7FFF_FFFF_FFFF_FFFF
  const TWO63: int := 0x8000_0000_0000_0000
  const TWO64: int := 0x1_0000_0000_0000_0000

  predicate Int64(x: int) {
    -TWO63 <= x <= MAX_INT64
  }

  predicate Amount(x: int) {
    0 <= x <= MAX_INT64
  }

  /** The low 64 bits, which is what a conversion or a sum keeps. */
  function ToInt64(x: int): (r: int)
    ensures Int64(r)
    ensures Int64(x) ==> r == x
  {
    (x + TWO63) % TWO64 - TWO63
  }

  datatype Round = Up | Down

  /** DivideBigInt: the quotient of big integers, rounded and cut to 64 bits. */
  function DivideBigInt(val: int, divisor: int, round: Round): (r: int)
    requires divisor != 0
  {
    var q := ToInt64(val / divisor);
    if round == Up && ToInt64(val % divisor) > 0 then ToInt64(q + 1) else q
  }

  /** r is val/d rounded as asked. */
  predicate Rounded(val: int, d: int, round: Round, r: int) {
    if round == Down then r * d <= val < r * d + d else r * d - d < val <= r * d
  }

  lemma ProductOrder(a: int, b: int, d: int)
    requires d > 0
    ensures a * d <= b * d ==> a <= b
    ensures a * d < b * d ==> a < b
    ensures a <= b ==> a * d <= b * d
    ensures (a + 1) * d == a * d + d && (a - 1) * d == a * d - d
  {
    assert b * d == a * d + (b - a) * d;
    ProductSign(b - a, d);
  }

  lemma ProductSign(x: int, d: int)
    requires d > 0
    ensures x > 0 ==> x * d > 0
    ensures x == 0 ==> x * d == 0
    ensures x < 0 ==> x * d < 0
  {}

  /** A quotient that fits a limit loses nothing in the conversion to 64 bits. */
  lemma DivideIsExact(val: int, d: int, round: Round, limit: int)
    requires 0 < d <= MAX_INT64 && 0 <= val <= limit * d && Amount(limit)
    ensures var r := DivideBigInt(val, d, round);
            Rounded(val, d, round, r) && 0 <= r <= limit
  {
    var q, m := val / d, val % d;
    assert val == q * d + m;
    ProductOrder(q, limit, d);
    assert 0 <= q by { if q < 0 { ProductOrder(q, -1, d); } }
    if m > 0 {
      ProductOrder(q, limit, d);
      assert q < limit;
    }
    ProductOrder(q, limit, d);
  }

  datatype Price = Price(num: int, den: int)

  /** getOfferValue: what one side can trade, scaled. */
  function OfferValue(maxToSell: int, maxToBuy: int, price: Price): int {
    var sellValue, buyValue := maxToSell * price.num, maxToBuy * price.den;
    if sellValue < buyValue then sellValue else buyValue
  }

  /** What the order buys and sells against one offer. */
  datatype Trade = Trade(bought: int, sold: int, orderIsSmaller: bool)

  /** The amounts exchanged once the smaller of the two values is known. */
  function Amounts(value: int, n: int, d: int, orderIsSmaller: bool): Trade
    requires n != 0 && d != 0
  {
    if n > d then
      var bought := DivideBigInt(value, n, Down);
      Trade(bought, DivideBigInt(bought * n, d, if orderIsSmaller then Up else Down), orderIsSmaller)
    else
      var sold := DivideBigInt(value, d, Down);
      Trade(DivideBigInt(sold * d, n, if orderIsSmaller then Down else Up), sold, orderIsSmaller)
  }

  function Match(maxSell: int, maxBuy: int, orderPrice: Price, offerBuy: int, offerSell: int, offerPrice: Price): Trade
    requires offerPrice.num != 0 && offerPrice.den != 0
  {
    var orderValue := OfferValue(maxSell, maxBuy, orderPrice);
    var offerValue := OfferValue(offerSell, offerBuy, offerPrice);
    Amounts(if orderValue < offerValue then orderValue else offerValue,
            offerPrice.num, offerPrice.den, orderValue < offerValue)
  }

  class Order {
    var maxSell: int
    var maxBuy: int
    var price: Price
    var sold: int
    var bought: int
    var full: bool

    constructor (maxSell: int, maxBuy: int, price: Price)
      ensures this.maxSell == maxSell && this.maxBuy == maxBuy && this.price == price
      ensures sold == 0 && bought == 0 && !full
    {
      this.maxSell, this.maxBuy, this.price := maxSell, maxBuy, price;
      sold, bought, full := 0, 0, false;
    }

    /** Exchange: the order crosses one offer. The result is false if the process stops: on a division
        by a zero in the price, or on the bounds check. */
    method Cross(offerBuy: int, offerSell: int, offerPrice: Price, checkError: bool) returns (ok: bool)
      modifies this
      ensures price == old(price)
      ensures offerPrice.num == 0 || offerPrice.den == 0 ==> !ok
      ensures offerPrice.num != 0 && offerPrice.den != 0 ==>
              var t := Match(old(maxSell), old(maxBuy), price, offerBuy, offerSell, offerPrice);
              && (ok <==> checkError ==> && 0 <= t.bought <= Min(offerSell, old(maxBuy))
                                         && 0 <= t.sold <= Min(offerBuy, old(maxSell)))
              && (ok ==>
                    && sold == ToInt64(old(sold) + t.sold) && maxSell == ToInt64(old(maxSell) - t.sold)
                    && bought == ToInt64(old(bought) + t.bought) && maxBuy == ToInt64(old(maxBuy) - t.bought)
                    && (full <==> t.orderIsSmaller || maxSell == 0 || maxBuy == 0))
    {
      var orderValue := OfferValue(maxSell, maxBuy, price);
      var offerValue := OfferValue(offerSell, offerBuy, offerPrice);
      var n, d := offerPrice.num, offerPrice.den;
      if n == 0 || d == 0 {
        return false;
      }
      var sellAssetSold, buyAssetBought;
      if orderValue < offerValue {
        if n > d {
          buyAssetBought := DivideBigInt(orderValue, n, Down);
          sellAssetSold := DivideBigInt(buyAssetBought * n, d, Up);
        } else {
          sellAssetSold := DivideBigInt(orderValue, d, Down);
          buyAssetBought := DivideBigInt(sellAssetSold * d, n, Down);
        }
      } else {
        if n > d {
          buyAssetBought := DivideBigInt(offerValue, n, Down);
          sellAssetSold := DivideBigInt(buyAssetBought * n, d, Down);
        } else {
          sellAssetSold := DivideBigInt(offerValue, d, Down);
          buyAssetBought := DivideBigInt(sellAssetSold * d, n, Up);
        }
      }
      if checkError {
        if buyAssetBought < 0 || buyAssetBought > Min(offerSell, maxBuy) {
          return false;
        }
        if sellAssetSold < 0 || sellAssetSold > Min(offerBuy, maxSell) {
          return false;
        }
      }
      sold := ToInt64(sold + sellAssetSold);
      maxSell := ToInt64(maxSell - sellAssetSold);
      bought := ToInt64(bought + buyAssetBought);
      maxBuy := ToInt64(maxBuy - buyAssetBought);
      full := orderValue < offerValue || maxSell == 0 || maxBuy == 0;
      return true;
    }
  }

  function Min(x: int, y: int): int {
    if x <= y then x else y
  }

  /** The trade respects the price up to less than one unit of the cheaper step, and the
      remainder goes to the side that was not used up. */
  predicate Fair(t: Trade, n: int, d: int) {
    if t.orderIsSmaller then 0 <= t.sold * d - t.bought * n < Min(n, d)
    else 0 <= t.bought * n - t.sold * d < Min(n, d)
  }

  lemma FairAmounts(value: int, n: int, d: int, orderIsSmaller: bool, buyLimit: int, sellLimit: int)
    requires 0 < n <= MAX_INT64 && 0 < d <= MAX_INT64 && Amount(buyLimit) && Amount(sellLimit)
    requires 0 <= value <= buyLimit * n && value <= sellLimit * d
    ensures var t := Amounts(value, n, d, orderIsSmaller);
            0 <= t.bought <= buyLimit && 0 <= t.sold <= sellLimit && Fair(t, n, d)
  {
    hide DivideBigInt;
    if n > d {
      DivideIsExact(value, n, Down, buyLimit);
      var bought := DivideBigInt(value, n, Down);
      ProductOrder(0, bought, n);
      DivideIsExact(bought * n, d, if orderIsSmaller then Up else Down, sellLimit);
    } else {
      DivideIsExact(value, d, Down, sellLimit);
      var sold := DivideBigInt(value, d, Down);
      ProductOrder(0, sold, d);
      DivideIsExact(sold * d, n, if orderIsSmaller then Down else Up, buyLimit);
    }
  }

  /**
   An order whose price is the reciprocal of the offer's: neither side's limits are exceeded,
   so the bounds check passes, no amount is cut, and the price error is below min(N, D), in
   favour of the side with the larger value.
   */
  lemma ExchangeIsFair(maxSell: int, maxBuy: int, offerBuy: int, offerSell: int, n: int, d: int)
    requires 0 < n <= MAX_INT64 && 0 < d <= MAX_INT64
    requires Amount(maxSell) && Amount(maxBuy) && Amount(offerBuy) && Amount(offerSell)
    ensures var t := Match(maxSell, maxBuy, Price(d, n), offerBuy, offerSell, Price(n, d));
            && 0 <= t.bought <= Min(offerSell, maxBuy)
            && 0 <= t.sold <= Min(offerBuy, maxSell)
            && Fair(t, n, d)
  {
    hide Amounts, Fair;
    var orderValue := OfferValue(maxSell, maxBuy, Price(d, n));
    var offerValue := OfferValue(offerSell, offerBuy, Price(n, d));
    ProductOrder(0, maxSell, d);
    ProductOrder(0, maxBuy, n);
    ProductOrder(0, offerSell, n);
    ProductOrder(0, offerBuy, d);
    FairAmounts(Min(orderValue, offerValue), n, d, orderValue < offerValue, Min(offerSell, maxBuy), Min(offerBuy, maxSell));
  }

  /******* Nothing is left to trade *******/

  /** What the two sides together could trade, scaled. */
  function TradeValue(maxSell: int, maxBuy: int, offerBuy: int, offerSell: int, n: int, d: int): int {
    Min(Min(maxSell * d, maxBuy * n), Min(offerSell * n, offerBuy * d))
  }

  /** A trade within the limits of both sides. */
  predicate Within(bought: int, sold: int, maxSell: int, maxBuy: int, offerBuy: int, offerSell: int) {
    0 <= bought <= Min(offerSell, maxBuy) && 0 <= sold <= Min(offerBuy, maxSell)
  }

  /** Of the value less than one unit of the dearer asset is left. */
  predicate LittleLeft(t: Trade, value: int, n: int, d: int) {
    if n > d then t.bought * n <= value < t.bought * n + n else t.sold * d <= value < t.sold * d + d
  }

  lemma SideOfAmounts(value: int, n: int, d: int, orderIsSmaller: bool)
    requires n != 0 && d != 0
    ensures Amounts(value, n, d, orderIsSmaller).orderIsSmaller == orderIsSmaller
  {
    hide DivideBigInt;
  }

  lemma LittleLeftOfAmounts(value: int, n: int, d: int, orderIsSmaller: bool, buyLimit: int, sellLimit: int)
    requires 0 < n <= MAX_INT64 && 0 < d <= MAX_INT64 && Amount(buyLimit) && Amount(sellLimit)
    requires 0 <= value <= buyLimit * n && value <= sellLimit * d
    ensures LittleLeft(Amounts(value, n, d, orderIsSmaller), value, n, d)
  {
    hide DivideBigInt;
    if n > d {
      DivideIsExact(value, n, Down, buyLimit);
    } else {
      DivideIsExact(value, d, Down, sellLimit);
    }
  }

  /**
   The trade is as large as it can be. With the reciprocal price less than one unit of the dearer asset is left of
   what the two sides could trade; and no trade within the limits, in which that unit is paid for, has more of it.
   */
  lemma ExchangeIsLargest(maxSell: int, maxBuy: int, offerBuy: int, offerSell: int, n: int, d: int)
    requires 0 < n <= MAX_INT64 && 0 < d <= MAX_INT64
    requires Amount(maxSell) && Amount(maxBuy) && Amount(offerBuy) && Amount(offerSell)
    ensures var t := Match(maxSell, maxBuy, Price(d, n), offerBuy, offerSell, Price(n, d));
            && LittleLeft(t, TradeValue(maxSell, maxBuy, offerBuy, offerSell, n, d), n, d)
            && (t.orderIsSmaller <==> Min(maxSell * d, maxBuy * n) < Min(offerSell * n, offerBuy * d))
            && forall bought: int, sold: int :: Within(bought, sold, maxSell, maxBuy, offerBuy, offerSell) ==>
                 && (n > d && bought * n <= sold * d ==> bought <= t.bought)
                 && (n <= d && sold * d <= bought * n ==> sold <= t.sold)
  {
    hide Amounts, LittleLeft;
    var orderValue := OfferValue(maxSell, maxBuy, Price(d, n));
    var offerValue := OfferValue(offerSell, offerBuy, Price(n, d));
    var value := TradeValue(maxSell, maxBuy, offerBuy, offerSell, n, d);
    ProductOrder(0, maxSell, d);
    ProductOrder(0, maxBuy, n);
    ProductOrder(0, offerSell, n);
    ProductOrder(0, offerBuy, d);
    LittleLeftOfAmounts(value, n, d, orderValue < offerValue, Min(offerSell, maxBuy), Min(offerBuy, maxSell));
    SideOfAmounts(value, n, d, orderValue < offerValue);
    var t := Match(maxSell, maxBuy, Price(d, n), offerBuy, offerSell, Price(n, d));
    forall bought: int, sold: int | Within(bought, sold, maxSell, maxBuy, offerBuy, offerSell)
      ensures n > d && bought * n <= sold * d ==> bought <= t.bought
      ensures n <= d && sold * d <= bought * n ==> sold <= t.sold
    {
      NotLarger(bought, sold, maxSell, maxBuy, offerBuy, offerSell, n, d, t);
    }
  }

  lemma NotLarger(bought: int, sold: int, maxSell: int, maxBuy: int, offerBuy: int, offerSell: int, n: int, d: int, t: Trade)
    requires 0 < n && 0 < d && Within(bought, sold, maxSell, maxBuy, offerBuy, offerSell)
    requires LittleLeft(t, TradeValue(maxSell, maxBuy, offerBuy, offerSell, n, d), n, d)
    ensures n > d && bought * n <= sold * d ==> bought <= t.bought
    ensures n <= d && sold * d <= bought * n ==> sold <= t.sold
  {
    ProductOrder(bought, maxBuy, n);
    ProductOrder(bought, offerSell, n);
    ProductOrder(sold, maxSell, d);
    ProductOrder(sold, offerBuy, d);
    ProductOrder(bought, t.bought + 1, n);
    ProductOrder(t.bought, t.bought + 1, n);
    ProductOrder(sold, t.sold + 1, d);
    ProductOrder(t.sold, t.sold + 1, d);
  }

  /******* Liabilities *******/

  /** GetLiability, selling and buying: the offer is crossed with itself without limits. */
  function Liability(amount: int, price: Price): Trade
    requires price.num != 0 && price.den != 0
  {
    Match(amount, MAX_INT64, price, MAX_INT64, MAX_INT64, Price(price.den, price.num))
  }

  /** None when a zero in the price stops the process. */
  method GetLiability(amount: int, price: Price, buying: bool) returns (r: Option<int>)
    ensures r.None? <==> price.num == 0 || price.den == 0
    ensures r.Some? ==> r.value == if buying then Liability(amount, price).bought else Liability(amount, price).sold
  {
    var order := new Order(amount, MAX_INT64, price);
    var ok := order.Cross(MAX_INT64, MAX_INT64, Price(price.den, price.num), false);
    if !ok {
      return None;
    }
    assert Int64(Liability(amount, price).bought) && Int64(Liability(amount, price).sold);
    r := Some(if buying then order.bought else order.sold);
  }

  /** The offer is small enough for its amount to be what limits the liability. */
  predicate Bounded(amount: int, price: Price) {
    && Amount(amount) && 0 < price.num <= MAX_INT64 && 0 < price.den <= MAX_INT64
    && amount * price.num < MAX_INT64 * Min(price.num, price.den)
  }

  lemma LiabilityValue(amount: int, price: Price)
    requires Bounded(amount, price)
    ensures Liability(amount, price) == Amounts(amount * price.num, price.den, price.num, true)
  {
    hide Amounts;
    var n, d := price.num, price.den;
    assert OfferValue(MAX_INT64, MAX_INT64, Price(d, n)) == MAX_INT64 * Min(n, d);
    assert MAX_INT64 * Min(n, d) <= MAX_INT64 * d;
  }

  /** The rounding of liabilities is stable: the selling liability is at most the amount, and an
      offer of just that amount has the same two liabilities. */
  lemma LiabilityStable(amount: int, price: Price)
    requires Bounded(amount, price)
    ensures var t := Liability(amount, price);
            && 0 <= t.sold <= amount && 0 <= t.bought
            && Bounded(t.sold, price)
            && Liability(t.sold, price) == t
  {
    var n, d := price.num, price.den;
    LiabilityValue(amount, price);
    var t := Liability(amount, price);
    var value := amount * n;
    ProductOrder(0, amount, n);
    LimitOfValue(amount, price);
    FairAmounts(value, d, n, true, MAX_INT64, amount);
    ProductOrder(t.sold, amount, n);
    LiabilityValue(t.sold, price);
    SameAmounts(value, d, n, t);
  }

  lemma LimitOfValue(amount: int, price: Price)
    requires Bounded(amount, price)
    ensures amount * price.num <= MAX_INT64 * price.den
  {
    assert MAX_INT64 * Min(price.num, price.den) <= MAX_INT64 * price.den;
  }

  /** Trading again with the value of what was sold gives the same trade. */
  lemma SameAmounts(value: int, n: int, d: int, t: Trade)
    requires 0 < n <= MAX_INT64 && 0 < d <= MAX_INT64 && 0 <= value
    requires t == Amounts(value, n, d, true) && 0 <= t.bought <= MAX_INT64 && 0 <= t.sold <= MAX_INT64 && Fair(t, n, d)
    ensures Amounts(t.sold * d, n, d, true) == t
  {
    hide DivideBigInt, ToInt64;
    if n > d {
      UniqueQuotient(t.sold * d, n, t.bought);
    } else {
      UniqueQuotient(t.sold * d, d, t.sold);
    }
  }

  lemma UniqueQuotient(val: int, d: int, q: int)
    requires 0 < d && Amount(q) && q * d <= val < q * d + d
    ensures DivideBigInt(val, d, Down) == q
  {
    var k := val / d;
    assert val == k * d + val % d;
    ProductOrder(k, q, d);
    ProductOrder(q, k, d);
    ProductOrder(k, q + 1, d);
    ProductOrder(q, k + 1, d);
  }

  /** A price at which an amount is what some whole amount of the other asset costs, rounded up. */
  ghost predicate WholeSteps(amount: int, price: Price) {
    exists k: int :: 0 <= k && IsCost(amount, price, k)
  }

  predicate IsCost(amount: int, price: Price, k: int) {
    k * price.den <= amount * price.num < k * price.den + Min(price.num, price.den)
  }

  /**
   What the liabilities are: an offer buys as much as its amount pays for, rounded down, and sells what that
   costs, rounded up; so less than one step of the price is left, and nothing exactly if the amount is a whole
   number of steps, as it always is at a price of at least one.
   */
  lemma LiabilityExactly(amount: int, price: Price)
    requires Bounded(amount, price)
    ensures var t := Liability(amount, price);
            && t.bought * price.den <= amount * price.num < t.bought * price.den + price.den
            && 0 <= (amount - t.sold) * price.num < price.den
            && (price.num >= price.den ==> t.sold == amount)
            && (price.num < price.den ==> (t.sold == amount <==> WholeSteps(amount, price)))
  {
    hide Amounts, Liability, LittleLeft, Fair;
    var n, d := price.den, price.num;
    var value := amount * d;
    LiabilityValue(amount, price);
    LimitOfValue(amount, price);
    ProductOrder(0, amount, d);
    LittleLeftOfAmounts(value, n, d, true, MAX_INT64, amount);
    FairAmounts(value, n, d, true, MAX_INT64, amount);
    SideOfAmounts(value, n, d, true);
    var t := Liability(amount, price);
    LiabilityLeaves(amount, n, d, t);
    if n > d {
      SellsWholeSteps(amount, price, t);
    }
  }

  lemma LiabilityLeaves(amount: int, n: int, d: int, t: Trade)
    requires 0 < n && 0 < d && 0 <= t.sold <= amount && t.orderIsSmaller
    requires LittleLeft(t, amount * d, n, d) && Fair(t, n, d)
    ensures t.bought * n <= amount * d < t.bought * n + n
    ensures 0 <= (amount - t.sold) * d < n && (n <= d ==> t.sold == amount)
  {
    ProductOrder(amount, t.sold + 1, d);
    ProductOrder(t.sold, amount, d);
    Difference(amount, t.sold, d);
    if n <= d {
      assert t.sold == amount;
    }
  }

  lemma Difference(a: int, b: int, d: int)
    ensures (a - b) * d == a * d - b * d
  {}

  lemma SellsWholeSteps(amount: int, price: Price, t: Trade)
    requires Amount(amount) && 0 < price.num < price.den && t.orderIsSmaller && 0 <= t.bought && 0 <= t.sold <= amount
    requires LittleLeft(t, amount * price.num, price.den, price.num) && Fair(t, price.den, price.num)
    ensures t.sold == amount <==> WholeSteps(amount, price)
  {
    var n, d := price.den, price.num;
    if t.sold == amount {
      assert IsCost(amount, price, t.bought);
    }
    if WholeSteps(amount, price) {
      var k: int :| 0 <= k && IsCost(amount, price, k);
      ProductOrder(k, t.bought + 1, n);
      ProductOrder(t.bought, k + 1, n);
      assert k == t.bought;
      ProductOrder(amount, t.sold + 1, d);
    }
  }
}
