/** The two price calculations of the plugin: the purchase path's
    `calculate_price` (package or custom plan, colour surcharge, carousel
    position difference, clamped at zero) and the older helper
    `zibll_ad_calculate_price` (package chosen by label, no position
    difference, no clamp). Money is integer cents. */
module Pricing {
  import opened Common
  import opened Config

  datatype PriceError = PackageNotFound | SingleMonthUnset

  datatype Quote = Quote(base: int, color: int, positionDiff: int, total: int)

  /** The first position from `i` on whose key is set and equals `k`. */
  function FirstKeyFrom<K(==)>(keys: seq<Option<K>>, k: K, i: nat): (r: Option<nat>)
    requires i <= |keys|
    ensures r.Some? ==> i <= r.value < |keys| && keys[r.value] == Some(k)
    ensures r.Some? ==> forall j | i <= j < r.value :: keys[j] != Some(k)
    ensures r.None? ==> forall j | i <= j < |keys| :: keys[j] != Some(k)
    decreases |keys| - i
  {
    if i == |keys| then None
    else if keys[i] == Some(k) then Some(i)
    else FirstKeyFrom(keys, k, i + 1)
  }

  function MonthsOf(pkgs: seq<Package>): (r: seq<Option<int>>)
    ensures |r| == |pkgs| && forall j | 0 <= j < |pkgs| :: r[j] == pkgs[j].months
  {
    seq(|pkgs|, j requires 0 <= j < |pkgs| => pkgs[j].months)
  }

  function KeysOf(opts: seq<ColorOption>): (r: seq<Option<string>>)
    ensures |r| == |opts| && forall j | 0 <= j < |opts| :: r[j] == opts[j].key
  {
    seq(|opts|, j requires 0 <= j < |opts| => opts[j].key)
  }

  /** The first package whose `months` is set and equals `months`. */
  function MatchingPackage(pkgs: seq<Package>, months: int): (r: Option<nat>)
    ensures r.Some? ==> r.value < |pkgs| && pkgs[r.value].months == Some(months)
    ensures r.Some? ==> forall j | 0 <= j < r.value :: pkgs[j].months != Some(months)
    ensures r.None? ==> forall j | 0 <= j < |pkgs| :: pkgs[j].months != Some(months)
  {
    FirstKeyFrom(MonthsOf(pkgs), months, 0)
  }

  /** The first colour option whose key is set and equals `key`. */
  function MatchingColor(opts: seq<ColorOption>, key: string): (r: Option<nat>)
    ensures r.Some? ==> r.value < |opts| && opts[r.value].key == Some(key)
    ensures r.Some? ==> forall j | 0 <= j < r.value :: opts[j].key != Some(key)
    ensures r.None? ==> forall j | 0 <= j < |opts| :: opts[j].key != Some(key)
  {
    FirstKeyFrom(KeysOf(opts), key, 0)
  }

  /** The colour surcharge: the price of the first option with the chosen
      key, nothing for an empty key ("" or "0") or an unmatched one. */
  function ColorSurcharge(s: Slot, colorKey: string): (r: int)
    ensures EmptyStr(colorKey) || s.colorOptions.None? ==> r == 0
    ensures s.colorOptions.Some? && !EmptyStr(colorKey) && MatchingColor(s.colorOptions.value, colorKey).None? ==> r == 0
    ensures s.colorOptions.Some? && !EmptyStr(colorKey) && MatchingColor(s.colorOptions.value, colorKey).Some? ==>
      r == s.colorOptions.value[MatchingColor(s.colorOptions.value, colorKey).value].price.GetOr(0)
  {
    if EmptyStr(colorKey) || s.colorOptions.None? then 0
    else match MatchingColor(s.colorOptions.value, colorKey)
      case None => 0
      case Some(i) => s.colorOptions.value[i].price.GetOr(0)
  }

  /** The carousel position difference applies only to a carousel slot
      with the difference switched on, from the second position on, with a
      positive amount. */
  predicate DiffApplies(s: Slot, unitKey: int) {
    s.imageDisplayMode.GetOr("grid") == "carousel" && s.carouselDiffEnabled &&
    unitKey > 0 && s.carouselDiffAmount.GetOr(0) > 0
  }

  /** A missing difference type counts as `decrement`. */
  predicate Decrements(s: Slot) {
    s.carouselDiffType.GetOr("decrement") == "decrement"
  }

  /** Monthly difference times position times months, negative when the
      difference decrements. */
  function PositionDiff(s: Slot, unitKey: int, months: int): (d: int)
  {
    if !DiffApplies(s, unitKey) then 0
    else
      var d := s.carouselDiffAmount.GetOr(0) * unitKey * months;
      if Decrements(s) then -d else d
  }

  /** The position difference is non-zero exactly when it applies to a
      purchase of at least one month; it is then a whole multiple of the
      amount, below zero for `decrement` and above zero otherwise. */
  lemma PositionDiffShape(s: Slot, unitKey: int, months: int)
    requires months >= 1
    ensures PositionDiff(s, unitKey, months) != 0 <==> DiffApplies(s, unitKey)
    ensures DiffApplies(s, unitKey) && Decrements(s) ==>
      PositionDiff(s, unitKey, months) == -(s.carouselDiffAmount.value * unitKey * months) < 0
    ensures DiffApplies(s, unitKey) && !Decrements(s) ==>
      PositionDiff(s, unitKey, months) == s.carouselDiffAmount.value * unitKey * months > 0
  {
    if DiffApplies(s, unitKey) {
      var a := s.carouselDiffAmount.value;
      assert a * unitKey > 0;
      assert a * unitKey * months >= a * unitKey;
    }
  }

  /** The base price of the plan: the price of the matched package, or the
      single-month price times the months. A package without a price, or
      no package for the duration, is refused; a package priced 0 is not. */
  function BasePrice(s: Slot, plan: string, months: int): (r: Result<int, PriceError>)
    ensures plan == "package" ==>
      (r.Ok? <==> MatchingPackage(s.packages, months).Some? &&
                  s.packages[MatchingPackage(s.packages, months).value].price.Some?)
    ensures plan == "package" && r.Ok? ==>
      r.value == s.packages[MatchingPackage(s.packages, months).value].price.value
    ensures plan == "package" && r.Err? ==> r.error == PackageNotFound
    ensures plan != "package" ==> (r.Ok? <==> s.singleMonth.GetOr(0) > 0)
    ensures plan != "package" && r.Ok? ==> r.value == s.singleMonth.value * months
    ensures plan != "package" && r.Err? ==> r.error == SingleMonthUnset
  {
    if plan == "package" then
      match MatchingPackage(s.packages, months)
      case None => Err(PackageNotFound)
      case Some(i) =>
        if s.packages[i].price.None? then Err(PackageNotFound) else Ok(s.packages[i].price.value)
    else
      var single := s.singleMonth.GetOr(0);
      if single <= 0 then Err(SingleMonthUnset) else Ok(single * months)
  }

  /** `calculate_price` of the purchase path. */
  function CalculatePrice(s: Slot, plan: string, months: int, colorKey: string, unitKey: int): (r: Result<Quote, PriceError>)
    ensures r.Err? <==> BasePrice(s, plan, months).Err?
    ensures r.Ok? ==>
      var q := r.value;
      q.base == BasePrice(s, plan, months).value &&
      q.color == ColorSurcharge(s, colorKey) &&
      q.positionDiff == PositionDiff(s, unitKey, months) &&
      q.total >= 0 &&
      (q.base + q.color + q.positionDiff >= 0 ==> q.total == q.base + q.color + q.positionDiff) &&
      (q.base + q.color + q.positionDiff < 0 ==> q.total == 0)
  {
    match BasePrice(s, plan, months)
    case Err(e) => Err(e)
    case Ok(base) =>
      var color := ColorSurcharge(s, colorKey);
      var diff := PositionDiff(s, unitKey, months);
      Ok(Quote(base, color, diff, Max(0, base + color + diff)))
  }

  /** Without a decrementing carousel difference and with non-negative
      colour prices, a custom plan of at least one month always has a
      positive price, at least the single-month price times the months. */
  lemma CustomPricePositive(s: Slot, months: int, colorKey: string, unitKey: int)
    requires s.singleMonth.GetOr(0) > 0 && months >= 1
    requires !(DiffApplies(s, unitKey) && Decrements(s))
    requires s.colorOptions.Some? ==> forall i | 0 <= i < |s.colorOptions.value| :: s.colorOptions.value[i].price.GetOr(0) >= 0
    ensures CalculatePrice(s, "custom", months, colorKey, unitKey).Ok?
    ensures CalculatePrice(s, "custom", months, colorKey, unitKey).value.total >= s.singleMonth.value * months > 0
  {
    PositionDiffShape(s, unitKey, months);
    var single := s.singleMonth.value;
    assert single * months >= single;
  }

  /** A decrementing difference can eat the whole price: the clamp then
      yields 0, which the purchase path refuses. */
  lemma DecrementCanZeroPrice()
    ensures var s := Slot(None, None, Some("image"), [], Some(100), None, Some("carousel"), true,
                          None, Some(60), None, None, None);
            CalculatePrice(s, "custom", 1, "", 2) == Ok(Quote(100, 0, -120, 0))
  {
  }

  /** A package priced 0 is accepted (only a missing price is refused). */
  lemma ZeroPricedPackageAccepted()
    ensures var s := Slot(None, None, None, [Package(None, Some(3), Some(0))], None, None, None, false,
                          None, None, None, None, None);
            CalculatePrice(s, "package", 3, "", 0) == Ok(Quote(0, 0, 0, 0)) &&
            CalculatePrice(s, "package", 6, "", 0) == Err(PackageNotFound)
  {
  }

  datatype HelperQuote = HelperQuote(base: int, color: int, total: int, months: int, isPackage: bool)

  /** The first package whose label (default "") equals a string plan. */
  function LabelMatch(pkgs: seq<Package>, plan: string): (r: Option<nat>)
    ensures r.Some? ==> r.value < |pkgs| && pkgs[r.value].name.GetOr("") == plan
    ensures r.Some? ==> forall j | 0 <= j < r.value :: pkgs[j].name.GetOr("") != plan
    ensures r.None? ==> forall j | 0 <= j < |pkgs| :: pkgs[j].name.GetOr("") != plan
  {
    LabelMatchFrom(pkgs, plan, 0)
  }

  function LabelMatchFrom(pkgs: seq<Package>, plan: string, i: nat): (r: Option<nat>)
    requires i <= |pkgs|
    ensures r.Some? ==> i <= r.value < |pkgs| && pkgs[r.value].name.GetOr("") == plan
    ensures r.Some? ==> forall j | i <= j < r.value :: pkgs[j].name.GetOr("") != plan
    ensures r.None? ==> forall j | i <= j < |pkgs| :: pkgs[j].name.GetOr("") != plan
    decreases |pkgs| - i
  {
    if i == |pkgs| then None
    else if pkgs[i].name.GetOr("") == plan then Some(i)
    else LabelMatchFrom(pkgs, plan, i + 1)
  }

  /** The helper's colour lookup: an option without a key reads as key "". */
  function HelperColor(s: Slot, colorKey: string): (r: int)
  {
    if EmptyStr(colorKey) || s.colorOptions.None? then 0
    else HelperColorFrom(s.colorOptions.value, colorKey, 0)
  }

  function HelperColorFrom(opts: seq<ColorOption>, colorKey: string, i: nat): int
    requires i <= |opts|
    decreases |opts| - i
  {
    if i == |opts| then 0
    else if opts[i].key.GetOr("") == colorKey then opts[i].price.GetOr(0)
    else HelperColorFrom(opts, colorKey, i + 1)
  }

  /** For a non-empty colour key the helper's lookup and the purchase
      path's lookup find the same option. */
  lemma {:induction false} HelperColorAgrees(s: Slot, colorKey: string)
    ensures HelperColor(s, colorKey) == ColorSurcharge(s, colorKey)
  {
    if !EmptyStr(colorKey) && s.colorOptions.Some? {
      HelperColorFromAgrees(s.colorOptions.value, colorKey, 0);
    }
  }

  lemma {:induction false} HelperColorFromAgrees(opts: seq<ColorOption>, colorKey: string, i: nat)
    requires i <= |opts| && colorKey != ""
    ensures HelperColorFrom(opts, colorKey, i) ==
      match FirstKeyFrom(KeysOf(opts), colorKey, i)
      case None => 0
      case Some(j) => opts[j].price.GetOr(0)
    decreases |opts| - i
  {
    if i < |opts| {
      assert opts[i].key.GetOr("") == colorKey <==> opts[i].key == Some(colorKey);
      if opts[i].key != Some(colorKey) {
        HelperColorFromAgrees(opts, colorKey, i + 1);
      }
    }
  }

  /** `zibll_ad_calculate_price`: a string plan naming a package label buys
      that package (months default 1); anything else is a month count of at
      least 1 at the single-month price (default 0, no refusal). The total
      is base plus colour: no position difference, no clamp. */
  function HelperPrice(s: Slot, plan: Val, colorKey: string): (q: HelperQuote)
    ensures q.total == q.base + q.color
    ensures q.color == ColorSurcharge(s, colorKey)
    ensures q.isPackage <==> plan.Str? && LabelMatch(s.packages, plan.s).Some?
    ensures q.isPackage ==>
      var p := s.packages[LabelMatch(s.packages, plan.s).value];
      q.base == p.price.GetOr(0) && q.months == p.months.GetOr(1)
    ensures !q.isPackage ==>
      q.months == Max(1, ValInt(plan)) && q.base == s.singleMonth.GetOr(0) * q.months
  {
    HelperColorAgrees(s, colorKey);
    var color := HelperColor(s, colorKey);
    var m := if plan.Str? then LabelMatch(s.packages, plan.s) else None;
    match m
    case Some(i) =>
      var p := s.packages[i];
      HelperQuote(p.price.GetOr(0), color, p.price.GetOr(0) + color, p.months.GetOr(1), true)
    case None =>
      var months := if ValInt(plan) <= 0 then 1 else ValInt(plan);
      var base := s.singleMonth.GetOr(0) * months;
      HelperQuote(base, color, base + color, months, false)
  }

  /** The two calculations agree on a custom plan given as a month count
      whenever the purchase path neither refuses, nor adds a position
      difference, nor clamps. */
  lemma HelperAgreesOnCustomPlan(s: Slot, months: int, colorKey: string, unitKey: int)
    requires months >= 1 && s.singleMonth.GetOr(0) > 0 && !DiffApplies(s, unitKey)
    requires ColorSurcharge(s, colorKey) >= 0
    ensures var a := CalculatePrice(s, "custom", months, colorKey, unitKey);
            var h := HelperPrice(s, Num(months), colorKey);
            a.Ok? && a.value.total == h.total && a.value.base == h.base && a.value.color == h.color
  {
    var single := s.singleMonth.value;
    assert single * months >= single;
  }
}
