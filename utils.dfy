/** The price-tier label of lib/utils.ts. */
module Utils {

  /** `getPriceLabel`: one dollar sign per tier for tiers 1 to 3, a single one for anything else. */
  function GetPriceLabel(priceTier: int): (dollars: string)
    ensures forall i :: 0 <= i < |dollars| ==> dollars[i] == '$'
    ensures 1 <= priceTier <= 3 ==> |dollars| == priceTier
    ensures !(1 <= priceTier <= 3) ==> dollars == "$"
  {
    match priceTier
    case 1 => "$"
    case 2 => "$$"
    case 3 => "$$$"
    case _ => "$"
  }

  /** The three tiers have three different labels. */
  lemma PriceLabelsDistinct(a: int, b: int)
    requires 1 <= a <= 3 && 1 <= b <= 3 && a != b
    ensures GetPriceLabel(a) != GetPriceLabel(b)
  {
  }
}
