/** The per-slot configuration the purchase path reads from a slot's post
    meta. Every key the code reads with `isset(...) ? ... : default` is an
    `Option`, so the default is applied where the code applies it. Prices are
    integer cents. */
module Config {
  import opened Common

  /** One entry of `pricing_packages`; `name` is its `label` key. */
  datatype Package = Package(name: Option<string>, months: Option<int>, price: Option<int>)

  /** One entry of `text_color_options`. */
  datatype ColorOption = ColorOption(key: Option<string>, price: Option<int>)

  datatype Slot = Slot(
    title: Option<string>,
    enabled: Option<bool>,
    slotType: Option<string>,
    /** `pricing_packages`; a missing or non-array value reads as no packages. */
    packages: seq<Package>,
    singleMonth: Option<int>,
    /** `text_color_options`; `None` when unset or not an array. */
    colorOptions: Option<seq<ColorOption>>,
    imageDisplayMode: Option<string>,
    carouselDiffEnabled: bool,
    carouselDiffType: Option<string>,
    carouselDiffAmount: Option<int>,
    textMin: Option<int>,
    textMax: Option<int>,
    /** `payment_methods_override`; `None` when unset or not an array. */
    paymentOverride: Option<seq<string>>)

  /** `isset($slot['enabled']) && !$slot['enabled']` is the only refusal. */
  predicate Enabled(s: Slot) {
    s.enabled.None? || s.enabled.value
  }

  /** A slot type other than `image` is treated as a text slot. */
  predicate IsImageSlot(s: Slot) {
    s.slotType.GetOr("image") == "image"
  }

  /** The slot's `payment_methods_override` when it is a non-empty array:
      only then does it restrict the payment methods. */
  function PaymentOverride(s: Slot): (r: Option<seq<string>>)
    ensures r.Some? <==> s.paymentOverride.Some? && s.paymentOverride.value != []
    ensures r.Some? ==> r == s.paymentOverride
  {
    if s.paymentOverride.Some? && s.paymentOverride.value != [] then s.paymentOverride else None
  }
}
