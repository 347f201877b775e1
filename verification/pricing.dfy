/** The pricing toggle: each price element carries a monthly and a yearly
    price string, and shows the one the toggle selects followed by " /mo". */
module Pricing {
  import opened Wrappers

  /** The annotation written after every price. */
  const SUFFIX := " /mo"

  /** A price element: its `data-monthly` and `data-yearly` strings (`None` when
      the attribute is missing) and what it currently shows. */
  datatype Price = Price(monthly: Option<string>, yearly: Option<string>, content: string)

  /** The string the toggle selects for `p`. */
  function Selected(p: Price, yearly: bool): Option<string> {
    if yearly then p.yearly else p.monthly
  }

  /** One price element under `updatePricing`: a usable selected string is
      shown with the suffix; a missing or empty one leaves the element as it was. */
  function UpdatePrice(p: Price, yearly: bool): (r: Price)
    ensures r.monthly == p.monthly && r.yearly == p.yearly
    ensures !Truthy(Selected(p, yearly)) ==> r == p
    ensures Truthy(Selected(p, yearly)) ==>
      |r.content| > |SUFFIX|
      && r.content[..|r.content| - |SUFFIX|] == Selected(p, yearly).value
      && r.content[|r.content| - |SUFFIX|..] == SUFFIX
  {
    var value := Selected(p, yearly);
    if Truthy(value) then p.(content := value.value + SUFFIX) else p
  }

  /** `updatePricing`: the yearly strings are used exactly when the toggle
      exists and is checked. */
  function UpdatePricing(toggle: Option<bool>, prices: seq<Price>): (r: seq<Price>)
    ensures |r| == |prices|
    ensures forall i :: 0 <= i < |prices| ==>
      r[i] == UpdatePrice(prices[i], toggle.Some? && toggle.value)
  {
    var yearly := toggle.Some? && toggle.value;
    seq(|prices|, i requires 0 <= i < |prices| => UpdatePrice(prices[i], yearly))
  }

  /** Load: the prices are rewritten once only when the toggle exists. */
  function PricingLoad(toggle: Option<bool>, prices: seq<Price>): (r: seq<Price>)
    ensures toggle.None? ==> r == prices
    ensures toggle.Some? ==> r == UpdatePricing(toggle, prices)
  {
    if toggle.Some? then UpdatePricing(toggle, prices) else prices
  }

  /** Re-running the update with the same toggle state changes nothing more. */
  lemma UpdateIdempotent(toggle: Option<bool>, prices: seq<Price>)
    ensures UpdatePricing(toggle, UpdatePricing(toggle, prices)) == UpdatePricing(toggle, prices)
  {
  }

  /** When an element has both strings, switching the toggle and switching it
      back shows exactly what switching straight to the final state shows. */
  lemma ToggleBackRestores(p: Price, first: bool, last: bool)
    requires Truthy(p.monthly) && Truthy(p.yearly)
    ensures UpdatePrice(UpdatePrice(p, first), last) == UpdatePrice(p, last)
  {
  }

  /** A price with "$10" monthly and "$96" yearly. */
  lemma PricingExample()
    ensures UpdatePricing(Some(true), [Price(Some("$10"), Some("$96"), "")])[0].content == "$96 /mo"
    ensures UpdatePricing(Some(false), [Price(Some("$10"), Some("$96"), "")])[0].content == "$10 /mo"
  {
  }
}
