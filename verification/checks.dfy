/** The request checks of `prepare_order`: guest purchase, the purchase
    pause, the request parameters and the submitted content, each with
    the errors it reports (`Prepare.PreCheck` runs them in order). `filter_var`,
    `is_email`, `parse_url`, the attachment lookup and the random parts of
    the order token are foreign and are passed in through `Env`. */
module Checks {
  import opened Common
  import opened Ajax
  import opened Validators
  import Config
  import Pricing
  import Helpers

  /** The request after sanitising; `userId` is 0 for a guest. */
  datatype Request = Request(
    nonceOk: bool,
    loggedIn: bool,
    userId: int,
    slotId: int,
    unitKey: int,
    planType: string,
    months: int,
    websiteName: string,
    websiteUrl: string,
    contactType: string,
    contactValue: string,
    targetUrl: string,
    imageId: int,
    imageUrl: string,
    textContent: string,
    colorKey: string)

  /** Foreign inputs of `prepare_order`: `filter_var`, `is_email`, the host
      part of `parse_url` ("" when absent), `wp_get_attachment_url` (""
      for false), the payment window of the theme, the signature primitives,
      and the random parts (the eight-character password of the token and
      the request id). */
  datatype Env = Env(
    filterUrl: string -> bool,
    isEmail: string -> bool,
    urlHost: string -> string,
    attachmentUrl: int -> string,
    themeTimeout: Option<PVal>,
    sign: SignEnv,
    randomSuffix: string,
    requestId: string)

  datatype ParamError = BadSlotId | BadUnitKey | BadPlanType | TooFewMonths | TooManyMonths

  datatype DataError =
    | NameEmpty | NameTooShort | NameTooLong | WebsiteUrlInvalid | WebsiteHostMissing
    | ContactInvalid | TargetUrlInvalid | ImageMissing | ImageUrlInvalid | ImageMismatch
    | TextEmpty | TextTooShort(min: int) | TextTooLong(max: int) | ColorInvalid

  datatype PrepareError =
    | NonceFailed | LoginRequired | PurchasePaused
    | InvalidParams(params: seq<ParamError>)
    | SlotNotFound | SlotDisabled
    | InvalidData(data: seq<DataError>)
    | Occupied(endsAt: int)
    | Locked(waitMinutes: int)
    | PriceInvalid

  /** Guests may buy unless `allow_guest_purchase` is stored as false. */
  predicate GuestAllowed(options: map<string, PVal>) {
    ToBool(Helpers.GetOption(options, "allow_guest_purchase", PBool(true)))
  }

  /** `global_pause_purchase` as `get_all` returns it: the stored value
      cast to bool, off when never stored. */
  predicate Paused(options: map<string, PVal>) {
    "global_pause_purchase" in options && ToBool(options["global_pause_purchase"])
  }

  /** The request parameters the first check accepts. */
  predicate ParamsValid(req: Request) {
    req.slotId > 0 && req.unitKey >= 0 && (req.planType == "package" || req.planType == "custom") &&
    1 <= req.months <= 120
  }

  /** The first batch of checks, all collected before one refusal. */
  function ParamErrors(req: Request): (errs: seq<ParamError>)
    ensures BadSlotId in errs <==> req.slotId <= 0
    ensures BadUnitKey in errs <==> req.unitKey < 0
    ensures BadPlanType in errs <==> !(req.planType == "package" || req.planType == "custom")
    ensures TooFewMonths in errs <==> req.months < 1
    ensures TooManyMonths in errs <==> req.months > 120
    ensures errs == [] <==> ParamsValid(req)
  {
    (if req.slotId <= 0 then [BadSlotId] else [])
    + (if req.unitKey < 0 then [BadUnitKey] else [])
    + (if !(req.planType == "package" || req.planType == "custom") then [BadPlanType] else [])
    + (if req.months < 1 then [TooFewMonths] else [])
    + (if req.months > 120 then [TooManyMonths] else [])
  }

  /** The text length bounds of a slot, 2 and 100 unless configured. */
  function TextMin(slot: Config.Slot): int { slot.textMin.GetOr(2) }
  function TextMax(slot: Config.Slot): int { slot.textMax.GetOr(100) }

  /** The colour key names the default colour. */
  predicate DefaultColor(key: string) {
    key == "" || key == "default"
  }

  /** A non-default colour must be one of the options of the slot, when the
      slot lists any. */
  predicate ColorOk(slot: Config.Slot, key: string) {
    DefaultColor(key) || slot.colorOptions.None? || slot.colorOptions.value == [] ||
    Pricing.MatchingColor(slot.colorOptions.value, key).Some?
  }

  /** The content the second batch of checks accepts, stated per field. */
  predicate ContentAcceptable(req: Request, slot: Config.Slot, env: Env) {
    NameAcceptable(Trim(req.websiteName)) &&
    WebsiteAcceptable(req.websiteUrl, env) &&
    AjaxValidateContact(req.contactType, req.contactValue, env.isEmail) &&
    AjaxValidateUrl(req.targetUrl, env.filterUrl) &&
    BodyAcceptable(req, slot, env)
  }

  /** The trimmed website name is non-empty and 2 to 50 characters long. */
  predicate NameAcceptable(name: string) {
    !EmptyStr(name) && 2 <= |name| <= 50
  }

  /** The website URL is optional; when given it is valid and has a host. */
  predicate WebsiteAcceptable(url: string, env: Env) {
    !EmptyStr(url) ==> AjaxValidateUrl(url, env.filterUrl) && !EmptyStr(env.urlHost(url))
  }

  /** An image slot needs a valid image URL that agrees with its
      attachment; a text slot needs text within its limits and a known
      colour. */
  predicate BodyAcceptable(req: Request, slot: Config.Slot, env: Env) {
    if Config.IsImageSlot(slot) then ImageAcceptable(req, env) else TextAcceptable(req, slot)
  }

  predicate ImageAcceptable(req: Request, env: Env) {
    AjaxValidateUrl(req.imageUrl, env.filterUrl) &&
    !(req.imageId > 0 && !EmptyStr(env.attachmentUrl(req.imageId)) &&
      env.attachmentUrl(req.imageId) != req.imageUrl)
  }

  predicate TextAcceptable(req: Request, slot: Config.Slot) {
    !EmptyStr(Trim(req.textContent)) &&
    TextMin(slot) <= |Trim(req.textContent)| <= TextMax(slot) &&
    ColorOk(slot, req.colorKey)
  }

  function NameErrors(name: string): (errs: seq<DataError>)
    ensures errs == [] <==> NameAcceptable(name)
  {
    if EmptyStr(name) then [NameEmpty]
    else if |name| < 2 then [NameTooShort]
    else if |name| > 50 then [NameTooLong]
    else []
  }

  /** The website URL is optional; when given, both checks run. */
  function WebsiteErrors(url: string, env: Env): (errs: seq<DataError>)
    ensures errs == [] <==> WebsiteAcceptable(url, env)
  {
    if EmptyStr(url) then []
    else
      (if !AjaxValidateUrl(url, env.filterUrl) then [WebsiteUrlInvalid] else [])
      + (if EmptyStr(env.urlHost(url)) then [WebsiteHostMissing] else [])
  }

  function ImageErrors(req: Request, env: Env): (errs: seq<DataError>)
    ensures errs == [] <==> ImageAcceptable(req, env)
  {
    if EmptyStr(req.imageUrl) then [ImageMissing]
    else
      (if !AjaxValidateUrl(req.imageUrl, env.filterUrl) then [ImageUrlInvalid] else [])
      + (if req.imageId > 0 && !EmptyStr(env.attachmentUrl(req.imageId)) &&
            env.attachmentUrl(req.imageId) != req.imageUrl then [ImageMismatch] else [])
  }

  function TextErrors(req: Request, slot: Config.Slot): (errs: seq<DataError>)
    ensures errs == [] <==> TextAcceptable(req, slot)
  {
    var text := Trim(req.textContent);
    (if EmptyStr(text) then [TextEmpty]
     else if |text| < TextMin(slot) then [TextTooShort(TextMin(slot))]
     else if |text| > TextMax(slot) then [TextTooLong(TextMax(slot))]
     else [])
    + (if ColorOk(slot, req.colorKey) then [] else [ColorInvalid])
  }

  /** The second batch of checks, run once the slot is known. */
  function DataErrors(req: Request, slot: Config.Slot, env: Env): (errs: seq<DataError>)
    ensures errs == [] <==> ContentAcceptable(req, slot, env)
  {
    var name := NameErrors(Trim(req.websiteName));
    var site := WebsiteErrors(req.websiteUrl, env);
    var contact := if AjaxValidateContact(req.contactType, req.contactValue, env.isEmail) then [] else [ContactInvalid];
    var target := if AjaxValidateUrl(req.targetUrl, env.filterUrl) then [] else [TargetUrlInvalid];
    var body := if Config.IsImageSlot(slot) then ImageErrors(req, env) else TextErrors(req, slot);
    assert body == [] <==> BodyAcceptable(req, slot, env);
    JoinEmpty(name, site, contact, target, body);
    name + site + contact + target + body
  }
}
