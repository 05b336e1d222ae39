/** Exchange rates: how they are quoted, shown rounded to two places, and used to convert. */
module ExchangeRates {
  import opened Prelude
  import opened AppErrors

  const RSD := "RSD"
  const BANK_COMMISSION: real := 0.015
  const ALLOWED_CURRENCIES: set<string> := {"EUR", "USD", "CHF", "GBP", "JPY", "CAD", "AUD", "RSD"}

  /** The eight currencies that the bank knows. */
  predicate IsKnown(c: string) {
    c == "RSD" || c == "EUR" || c == "USD" || c == "CHF" || c == "GBP" || c == "JPY" || c == "CAD" || c == "AUD"
  }

  lemma EightCurrencies(c: string)
    ensures c in ALLOWED_CURRENCIES <==> IsKnown(c)
  {
  }

  datatype RateRow = RateRow(
    currency: string, base: string, buy: real, middle: real, sell: real, updatedAt: int, nextUpdateAt: int)

  /** Rows with a zero quote are never stored, so no stored sell rate is zero. */
  type ExchangeRate = r: RateRow | r.sell != 0.0 witness RateRow("", "", 1.0, 1.0, 1.0, 0, 0)

  /** The row that a refresh stores for the provider's quote of one RSD in `currency`. */
  function QuotedRate(currency: string, apiRate: real, updatedAt: int, nextUpdateAt: int): RateRow
    requires apiRate != 0.0
  {
    var middle := 1.0 / apiRate;
    RateRow(currency, RSD, middle * (1.0 - BANK_COMMISSION), middle, middle * (1.0 + BANK_COMMISSION),
            updatedAt, nextUpdateAt)
  }

  predicate Ordered(r: RateRow) { r.buy <= r.middle <= r.sell }

  lemma QuotesAreOrderedExactlyWhenPositive(currency: string, apiRate: real, updatedAt: int, nextUpdateAt: int)
    requires apiRate != 0.0
    ensures QuotedRate(currency, apiRate, updatedAt, nextUpdateAt).sell != 0.0
    ensures Ordered(QuotedRate(currency, apiRate, updatedAt, nextUpdateAt)) <==> apiRate > 0.0
    ensures apiRate > 0.0 ==> QuotedRate(currency, apiRate, updatedAt, nextUpdateAt).buy > 0.0
  {
    var middle := 1.0 / apiRate;
    assert middle * apiRate == 1.0;
    assert middle > 0.0 <==> apiRate > 0.0;
  }

  // ----- rounding to two places -----

  /** Rounds to the nearest integer, halves away from zero. */
  function RoundHalfAway(x: real): int {
    if x >= 0.0 then (x + 0.5).Floor else -((-x + 0.5).Floor)
  }

  function Round2(v: real): real {
    RoundHalfAway(v * 100.0) as real / 100.0
  }

  function Hundredths(k: int): real { k as real / 100.0 }

  /** Rounding moves a rate by at most half a hundredth, keeps whole hundredths, and does so a second
      time without effect; it is odd, and of two equally near hundredths it takes the one further from 0. */
  lemma Round2IsNearest(v: real)
    ensures -0.005 <= Round2(v) - v <= 0.005
    ensures (exists k :: v == Hundredths(k)) ==> Round2(v) == v
    ensures Round2(Round2(v)) == Round2(v)
    ensures Round2(-v) == -Round2(v)
    ensures Round2(v) - v == 0.005 ==> v > 0.0
    ensures Round2(v) - v == -0.005 ==> v < 0.0
  {
    WholeHundredthsStay(RoundHalfAway(v * 100.0));
    if k :| v == Hundredths(k) {
      WholeHundredthsStay(k);
    }
  }

  lemma WholeHundredthsStay(k: int)
    ensures RoundHalfAway(Hundredths(k) * 100.0) == k
  {
    assert Hundredths(k) * 100.0 == k as real;
    assert (k as real + 0.5).Floor == k;
    assert (-(k as real) + 0.5).Floor == -k;
  }

  lemma Round2IsMonotone(v: real, w: real)
    requires v <= w
    ensures Round2(v) <= Round2(w)
  {
    RoundIsMonotone(v * 100.0, w * 100.0);
    var a, b := RoundHalfAway(v * 100.0), RoundHalfAway(w * 100.0);
    assert a as real <= b as real;
  }

  lemma RoundIsMonotone(x: real, y: real)
    requires x <= y
    ensures RoundHalfAway(x) <= RoundHalfAway(y)
  {
    if x >= 0.0 {
      assert x + 0.5 <= y + 0.5;
    } else if y < 0.0 {
      assert -y + 0.5 <= -x + 0.5;
    } else {
      assert (-x + 0.5).Floor >= 0 && (y + 0.5).Floor >= 0;
    }
  }

  datatype RateItem = RateItem(currency: string, buy: real, middle: real, sell: real)

  datatype RatesResponse = RatesResponse(base: string, updatedAt: int, nextUpdateAt: int, rates: seq<RateItem>)

  function Shown(r: RateRow): RateItem {
    RateItem(r.currency, Round2(r.buy), Round2(r.middle), Round2(r.sell))
  }

  /** The listing shows every row in place; it takes its header from the first, so there must be one. */
  method ToExchangeRatesResponse(rates: seq<RateRow>) returns (response: RatesResponse)
    requires rates != []
    ensures response.base == rates[0].base
    ensures response.updatedAt == rates[0].updatedAt && response.nextUpdateAt == rates[0].nextUpdateAt
    ensures |response.rates| == |rates|
    ensures forall i :: 0 <= i < |rates| ==>
              && response.rates[i].currency == rates[i].currency
              && -0.005 <= response.rates[i].buy - rates[i].buy <= 0.005
              && -0.005 <= response.rates[i].middle - rates[i].middle <= 0.005
              && -0.005 <= response.rates[i].sell - rates[i].sell <= 0.005
    ensures forall i :: 0 <= i < |rates| ==> response.rates[i] == Shown(rates[i])
    ensures forall i :: 0 <= i < |rates| && Ordered(rates[i]) ==>
              response.rates[i].buy <= response.rates[i].middle <= response.rates[i].sell
  {
    var items: seq<RateItem> := [];
    for i := 0 to |rates|
      invariant |items| == i && forall j :: 0 <= j < i ==> items[j] == Shown(rates[j])
      invariant forall j :: 0 <= j < i ==>
        && items[j].currency == rates[j].currency
        && -0.005 <= items[j].buy - rates[j].buy <= 0.005
        && -0.005 <= items[j].middle - rates[j].middle <= 0.005
        && -0.005 <= items[j].sell - rates[j].sell <= 0.005
      invariant forall j :: 0 <= j < i && Ordered(rates[j]) ==> items[j].buy <= items[j].middle <= items[j].sell
    {
      var r := rates[i];
      Round2IsNearest(r.buy);
      Round2IsNearest(r.middle);
      Round2IsNearest(r.sell);
      if Ordered(r) {
        Round2IsMonotone(r.buy, r.middle);
        Round2IsMonotone(r.middle, r.sell);
      }
      items := items + [RateItem(r.currency, Round2(r.buy), Round2(r.middle), Round2(r.sell))];
    }
    response := RatesResponse(rates[0].base, rates[0].updatedAt, rates[0].nextUpdateAt, items);
  }

  // ----- conversion -----

  type RateTable = map<string, ExchangeRate>

  /** What reading the stored rates gives: nothing when the repository fails. */
  type RatesRead = Option<RateTable>

  function ToRsd(amount: real, currency: string, table: RateTable): Result<real, Err> {
    if currency == RSD then Ok(amount)
    else if currency !in table then Fail(ServiceUnavailable(Nil))
    else Ok(amount * table[currency].buy)
  }

  function FromRsd(amount: real, currency: string, table: RateTable): Result<real, Err> {
    if currency == RSD then Ok(amount)
    else if currency !in table then Fail(ServiceUnavailable(Nil))
    else Ok(amount / table[currency].sell)
  }

  function Convert(amount: real, from: string, to: string, rates: RatesRead): Result<real, Err> {
    if from == to then Ok(amount)
    else if rates.None? then Fail(InternalErr(Plain(DB_ERROR)))
    else if rates.value == map[] then Fail(ServiceUnavailable(Nil))
    else
      match ToRsd(amount, from, rates.value)
      case Fail(e) => Fail(e)
      case Ok(rsd) => FromRsd(rsd, to, rates.value)
  }

  /** The commission on a payment between two currencies. */
  function CalculateFee(amount: real): real {
    if amount <= 0.0 then 0.0 else Round2(amount * BANK_COMMISSION)
  }

  /** One and a half percent to the nearest hundredth, and nothing on what is not positive. */
  lemma FeeIsTheCommission(amount: real)
    ensures amount <= 0.0 ==> CalculateFee(amount) == 0.0
    ensures amount > 0.0 ==> OneAndAHalfPercent(CalculateFee(amount), amount)
  {
    if amount > 0.0 {
      Round2IsNearest(amount * 0.015);
      Round2IsWhole(amount * 0.015);
      assert CalculateFee(amount) == Round2(amount * 0.015);
    }
  }

  lemma Round2IsWhole(v: real)
    ensures (Round2(v) * 100.0).Floor as real == Round2(v) * 100.0
    ensures v >= 0.0 ==> Round2(v) >= 0.0
  {
    assert Round2(v) == Hundredths(RoundHalfAway(v * 100.0));
    HundredthsAreWhole(RoundHalfAway(v * 100.0));
    if v >= 0.0 {
      NotBelowZero(v * 100.0);
    }
  }

  lemma HundredthsAreWhole(k: int)
    ensures Hundredths(k) * 100.0 == k as real && (Hundredths(k) * 100.0).Floor == k
    ensures k >= 0 ==> Hundredths(k) >= 0.0
  {
    var h := Hundredths(k);
    assert h * 100.0 == k as real;
  }

  lemma NotBelowZero(x: real)
    requires x >= 0.0
    ensures RoundHalfAway(x) >= 0
  {
  }

  /** `fee` is a whole number of hundredths within half a hundredth of 1.5 percent of `amount`. */
  predicate OneAndAHalfPercent(fee: real, amount: real) {
    fee >= 0.0 && (fee * 100.0).Floor as real == fee * 100.0 && -0.005 <= fee - 0.015 * amount <= 0.005
  }

  /** What conversion does, in terms of the rows alone: an amount is sold to the bank at the buy rate of its
      currency and paid out at the sell rate of the other, where RSD has no row and counts one for one. It
      needs both rows: without rates from the repository it fails with 500, and without a row with 503. */
  lemma ConvertAtTheRates(amount: real, from: string, to: string, rates: RatesRead)
    ensures from == to ==> Convert(amount, from, to, rates) == Ok(amount)
    ensures from != to && rates.None? ==>
      Convert(amount, from, to, rates).Fail? && HasStatus(Convert(amount, from, to, rates).error, 500)
    ensures from != to && rates.Some? ==>
      var table := rates.value;
      if table.Keys != {} && (from == "RSD" || from in table) && (to == "RSD" || to in table) then
        && Convert(amount, from, to, rates).Ok?
        && Convert(amount, from, to, rates).value * (if to == "RSD" then 1.0 else table[to].sell) ==
           amount * (if from == "RSD" then 1.0 else table[from].buy)
      else Convert(amount, from, to, rates).Fail? && HasStatus(Convert(amount, from, to, rates).error, 503)
  {
    if rates.Some? {
      assert rates.value == map[] <==> rates.value.Keys == {};
    }
  }

  /** A row is stored with 0.985, 1 and 1.015 times the inverse of the provider's quote. */
  lemma QuotedAtTheCommission(currency: string, apiRate: real, updatedAt: int, nextUpdateAt: int)
    requires apiRate != 0.0
    ensures var r := QuotedRate(currency, apiRate, updatedAt, nextUpdateAt);
      && r.currency == currency && r.base == "RSD" && r.middle * apiRate == 1.0
      && r.buy == 0.985 * r.middle && r.sell == 1.015 * r.middle
  {
  }

  predicate Positive(rates: RatesRead) {
    rates.Some? ==> forall c :: c in rates.value ==> rates.value[c].buy > 0.0 && rates.value[c].sell > 0.0
  }

  predicate Spread(rates: RatesRead) {
    rates.Some? ==> forall c :: c in rates.value ==> 0.0 < rates.value[c].buy <= rates.value[c].sell
  }

  /** Tables whose rows were stored for positive quotes have a spread, and positive rates. */
  lemma QuotedTablesHaveASpread(rates: RatesRead, quotes: map<string, real>, updatedAt: int, nextUpdateAt: int)
    requires rates.Some? ==> rates.value.Keys <= quotes.Keys
    requires forall c :: c in quotes ==> quotes[c] > 0.0
    requires rates.Some? ==>
      forall c :: c in rates.value ==> rates.value[c] == QuotedRate(c, quotes[c], updatedAt, nextUpdateAt)
    ensures Spread(rates) && Positive(rates)
  {
    if rates.Some? {
      forall c | c in rates.value
        ensures 0.0 < rates.value[c].buy <= rates.value[c].sell
      {
        QuotesAreOrderedExactlyWhenPositive(c, quotes[c], updatedAt, nextUpdateAt);
      }
    }
  }

  /** Conversion keeps the sign of an amount. */
  lemma ConvertKeepsSign(amount: real, from: string, to: string, rates: RatesRead)
    requires Positive(rates) && Convert(amount, from, to, rates).Ok?
    ensures amount > 0.0 <==> Convert(amount, from, to, rates).value > 0.0
    ensures amount < 0.0 <==> Convert(amount, from, to, rates).value < 0.0
  {
    if from != to {
      var t := rates.value;
      var rsd := ToRsd(amount, from, t).value;
      if from != RSD {
        SignOfProduct(amount, t[from].buy);
      }
      if to != RSD {
        var x := rsd / t[to].sell;
        assert x * t[to].sell == rsd;
        SignOfProduct(x, t[to].sell);
      }
    }
  }

  lemma SignOfProduct(x: real, y: real)
    requires y > 0.0
    ensures (x * y > 0.0 <==> x > 0.0) && (x * y < 0.0 <==> x < 0.0)
  {
    if x > 0.0 {
      assert x * y > 0.0;
    } else if x < 0.0 {
      assert -x * y > 0.0;
    }
  }

  /** Converts along a path of currencies, one conversion after the other. */
  function ConvertAlong(amount: real, path: seq<string>, rates: RatesRead): Result<real, Err>
    requires path != []
  {
    if |path| == 1 then Ok(amount)
    else
      match ConvertAlong(amount, path[..|path| - 1], rates)
      case Fail(e) => Fail(e)
      case Ok(x) => Convert(x, path[|path| - 2], path[|path| - 1], rates)
  }

  /** What one unit is worth to a customer who sells RSD for it. */
  function Worth(currency: string, rates: RatesRead): real {
    if currency != RSD && rates.Some? && currency in rates.value then rates.value[currency].sell else 1.0
  }

  /** A sum of money in RSD as a buyer of that currency would pay it. */
  function Valued(amount: real, currency: string, rates: RatesRead): real {
    amount * Worth(currency, rates)
  }

  lemma ConvertNeverGains(amount: real, from: string, to: string, rates: RatesRead)
    requires amount >= 0.0 && Spread(rates) && Convert(amount, from, to, rates).Ok?
    ensures var x := Convert(amount, from, to, rates).value;
      x >= 0.0 && Valued(x, to, rates) <= Valued(amount, from, rates)
  {
    ConvertKeepsSign(amount, from, to, rates);
    ConvertAtTheRates(amount, from, to, rates);
    if from != to {
      Monotone(amount, if from == RSD then 1.0 else rates.value[from].buy, Worth(from, rates));
    }
  }

  lemma Monotone(amount: real, x: real, y: real)
    requires amount >= 0.0 && x <= y
    ensures amount * x <= amount * y
  {
    var d := y - x;
    assert amount * d >= 0.0;
    assert amount * y == amount * x + amount * d;
  }

  lemma {:induction false} PathNeverGains(amount: real, path: seq<string>, rates: RatesRead)
    requires amount >= 0.0 && Spread(rates) && path != [] && ConvertAlong(amount, path, rates).Ok?
    ensures ConvertAlong(amount, path, rates).value >= 0.0
    ensures Valued(ConvertAlong(amount, path, rates).value, path[|path| - 1], rates) <= Valued(amount, path[0], rates)
  {
    if |path| > 1 {
      var init := path[..|path| - 1];
      var before := ConvertAlong(amount, init, rates);
      PathNeverGains(amount, init, rates);
      ConvertNeverGains(before.value, path[|path| - 2], path[|path| - 1], rates);
    }
  }

  /** Through whatever currencies money goes, coming back it is never more than it was. */
  lemma NoRoundTripGains(amount: real, path: seq<string>, rates: RatesRead)
    requires amount >= 0.0 && Spread(rates) && path != [] && ConvertAlong(amount, path, rates).Ok?
    requires path[0] == path[|path| - 1]
    ensures ConvertAlong(amount, path, rates).value <= amount
  {
    PathNeverGains(amount, path, rates);
    WorthMore(ConvertAlong(amount, path, rates).value, amount, path[0], rates);
  }

  lemma WorthMore(x: real, y: real, currency: string, rates: RatesRead)
    requires Spread(rates) && Valued(x, currency, rates) <= Valued(y, currency, rates)
    ensures x <= y
  {
    var w := Worth(currency, rates);
    assert Valued(x, currency, rates) == x * w && Valued(y, currency, rates) == y * w;
    SignOfProduct(x - y, w);
    assert (x - y) * w == x * w - y * w;
  }
}
