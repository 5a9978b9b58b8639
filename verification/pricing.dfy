/** The pricing page's tier table and how a tier's price is displayed. */
module Pricing {
  import opened Wrappers
  import opened JsText

  /** A plan; `price` is `null` for a negotiated price. Features and copy
      are static text and are not modelled. */
  datatype Tier = Tier(name: string, price: Option<int>, popular: bool, cta: string)

  const Tiers: seq<Tier> := [
    Tier("Starter", Some(2499), false, "Start Free Trial"),
    Tier("Professional", Some(8999), true, "Start Free Trial"),
    Tier("Enterprise", None, false, "Contact Sales")
  ]

  const CustomLabel: string := "Custom"
  const CurrencyPrefix: string := "Rs. "

  /** A falsy price: `null` or zero. */
  predicate NoPrice(price: Option<int>) {
    price.None? || price.value == 0
  }

  /** `getPrice`: "Custom" for a falsy price, otherwise the price in
      decimal after the rupee prefix. */
  function GetPrice(price: Option<int>): (r: string)
    ensures r == CustomLabel <==> NoPrice(price)
    ensures !NoPrice(price) ==> |r| > |CurrencyPrefix| && r[..|CurrencyPrefix|] == CurrencyPrefix
    ensures !NoPrice(price) && price.value > 0 ==>
      AllDigits(r[|CurrencyPrefix|..]) && DecimalValue(r[|CurrencyPrefix|..]) == price.value
  {
    if NoPrice(price) then CustomLabel
    else
      var r := CurrencyPrefix + IntToDecimal(price.value);
      assert r[0] != CustomLabel[0];
      assert r[|CurrencyPrefix|..] == IntToDecimal(price.value);
      r
  }

  /** What follows the price: `{tier.price && <span>per month</span>}`.
      For a price of zero the expression is the number 0, which renders as
      the text "0". */
  datatype Suffix = NoSuffix | ZeroText | PerMonth

  function PriceSuffixAsWritten(price: Option<int>): (r: Suffix)
    ensures r == PerMonth <==> !NoPrice(price)
  {
    match price
    case None => NoSuffix
    case Some(p) => if p == 0 then ZeroText else PerMonth
  }

  /** A zero price would show "Custom" followed by a stray "0". */
  lemma ZeroPriceShowsStrayZero()
    ensures GetPrice(Some(0)) == CustomLabel
    ensures PriceSuffixAsWritten(Some(0)) == ZeroText
  {
  }

  /** The suffix as intended: "per month" exactly when a price is shown. */
  function PriceSuffix(price: Option<int>): (r: Suffix)
    ensures r != ZeroText
    ensures r == PerMonth <==> GetPrice(price) != CustomLabel
  {
    if NoPrice(price) then NoSuffix else PerMonth
  }

  /** Both readings agree on every price except zero. */
  lemma SuffixReadingsAgree(price: Option<int>)
    requires price != Some(0)
    ensures PriceSuffixAsWritten(price) == PriceSuffix(price)
  {
  }

  /** What one tier card shows in its price line. */
  datatype PriceLine = PriceLine(amount: string, suffix: Suffix, badge: bool)

  function PriceLineFor(t: Tier): PriceLine {
    PriceLine(GetPrice(t.price), PriceSuffix(t.price), t.popular)
  }

  /** The three plans as shown: two priced monthly plans and a custom one,
      with exactly one marked most popular. */
  lemma TierTable()
    ensures |Tiers| == 3
    ensures forall i :: 0 <= i < |Tiers| ==> (Tiers[i].popular <==> Tiers[i].name == "Professional")
    ensures forall i :: 0 <= i < |Tiers| ==> PriceSuffixAsWritten(Tiers[i].price) == PriceSuffix(Tiers[i].price)
    ensures PriceLineFor(Tiers[2]) == PriceLine(CustomLabel, NoSuffix, false)
    ensures PriceLineFor(Tiers[0]).suffix == PerMonth && !PriceLineFor(Tiers[0]).badge
    ensures PriceLineFor(Tiers[1]).suffix == PerMonth && PriceLineFor(Tiers[1]).badge
    ensures DecimalValue(GetPrice(Tiers[0].price)[|CurrencyPrefix|..]) == 2499
    ensures DecimalValue(GetPrice(Tiers[1].price)[|CurrencyPrefix|..]) == 8999
  {
    forall i | 0 <= i < |Tiers|
      ensures PriceSuffixAsWritten(Tiers[i].price) == PriceSuffix(Tiers[i].price)
    {
      SuffixReadingsAgree(Tiers[i].price);
    }
  }
}
