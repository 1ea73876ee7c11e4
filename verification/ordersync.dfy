/** The payment-provider side of a purchase: the order-data filter that
    turns a signed reservation into a provider order, the success, created
    and closed callbacks that move the unit and the ledger, and the two
    payment-method lists. The provider's order is read through
    `ProviderOrder`, already normalised from an object, array or id. */
module OrderSync {
  import opened Common
  import Units
  import Ledger
  import Config
  import Helpers
  import Compat
  import Ajax

  // ---------------------------------------------------------------------
  // The provider's order

  /** The `price_detail` array of an ad request. */
  datatype PriceDetail = PriceDetail(basePrice: Option<int>, colorPrice: Option<int>, planType: Option<string>)

  /** The `zibll_ad_request` array kept in the provider order's `other`
      column. Every key is optional; integers are already read with
      `intval`, money is in cents. */
  datatype AdRequest = AdRequest(
    slotId: Option<int>,
    unitId: Option<int>,
    unitKey: Option<int>,
    durationMonths: Option<int>,
    totalPrice: Option<int>,
    basePrice: Option<int>,
    colorPrice: Option<int>,
    planType: Option<string>,
    priceDetail: Option<PriceDetail>,
    adData: Option<map<Units.ContentField, Val>>,
    transientKey: Option<string>)

  const NoRequest: AdRequest := AdRequest(None, None, None, None, None, None, None, None, None, None, None)

  /** A provider order after normalisation. `request` is the
      `zibll_ad_request` entry when `other` unserializes to an array that
      has one. */
  datatype ProviderOrder = ProviderOrder(
    id: Option<int>,
    orderNum: Option<string>,
    orderType: Option<int>,
    request: Option<AdRequest>,
    productId: Option<string>,
    postId: Option<int>,
    payId: Option<int>,
    payType: Option<string>,
    userId: Option<int>,
    orderPrice: Option<int>,
    payPrice: Option<int>)

  /** The provider order id as the ledger receives it: 0 when unset. */
  function Zid(o: ProviderOrder): int {
    o.id.GetOr(0)
  }

  /** What `\d+:\d+` matches in full. */
  predicate SlotUnitShape(s: string) {
    exists i | 0 < i < |s| - 1 :: s[i] == ':' && AllDigits(s[..i]) && AllDigits(s[i + 1..])
  }

  /** The three signs of an ad order the callbacks accept: order type 31,
      an ad request, or a product id matching `^\d+:\d+$`. */
  predicate IsAdOrder(o: ProviderOrder) {
    o.orderType == Some(31) || o.request.Some? ||
    (o.productId.Some? && Helpers.Anchored(SlotUnitShape, o.productId.value))
  }

  /** The ad request the success and closed callbacks use: `None` when it
      is missing or an empty array. */
  function RequestOf(o: ProviderOrder): (r: Option<AdRequest>)
    ensures r.Some? <==> o.request.Some? && o.request.value != NoRequest
    ensures r.Some? ==> r == o.request
  {
    if o.request.Some? && o.request.value != NoRequest then o.request else None
  }

  /** The three tables the callbacks touch. */
  datatype Store = Store(units: Units.Table, orders: Ledger.Orders, transients: map<string, Ajax.OrderData>)

  ghost predicate Valid(s: Store) {
    Units.Valid(s.units) && Ledger.IdsBelowNext(s.orders) && Ledger.UniqueProviderIds(s.orders)
  }

  // ---------------------------------------------------------------------
  // Payment methods

  /** `get_allowed_payment_methods`: the theme's methods for order type 31,
      without `balance` when the plugin option is off, intersected with the
      slot's whitelist, and without `balance` for a guest. */
  function AllowedPaymentMethods(slot: Config.Slot, themeMethods: seq<string>, loggedIn: bool,
                                 options: map<string, PVal>): (r: seq<string>)
    ensures forall x :: x in r ==> x in themeMethods
    ensures forall x | x in r && Config.PaymentOverride(slot).Some? :: x in Config.PaymentOverride(slot).value
    ensures "balance" in r ==> loggedIn && Ajax.BalanceAllowed(options)
  {
    var m1 := if !Ajax.BalanceAllowed(options) then Without(themeMethods, ["balance"]) else themeMethods;
    var m2 := match Config.PaymentOverride(slot) case None => m1 case Some(ov) => Within(m1, ov);
    if !loggedIn then Without(m2, ["balance"]) else m2
  }

  /** Every theme method the three rules do not exclude is allowed. */
  lemma AllowedMethodsComplete(slot: Config.Slot, themeMethods: seq<string>, loggedIn: bool,
                               options: map<string, PVal>, x: string)
    requires x in themeMethods
    requires Config.PaymentOverride(slot).Some? ==> x in Config.PaymentOverride(slot).value
    requires x == "balance" ==> loggedIn && Ajax.BalanceAllowed(options)
    ensures x in AllowedPaymentMethods(slot, themeMethods, loggedIn, options)
  {
  }

  /** The slot whose whitelist the hook applies: the posted `slot_id`,
      when non-zero and known. */
  function PostedOverride(postedSlot: PVal, slots: map<int, Config.Slot>): Option<seq<string>> {
    var id := ToInt(postedSlot);
    if id != 0 && id in slots then Config.PaymentOverride(slots[id]) else None
  }

  /** `filter_payment_methods`, the provider's method-list hook: for order
      type 31, `balance` is removed for a guest and the posted slot's
      whitelist is applied. Unlike the order-time list it does not read the
      `allow_balance_payment` option. */
  function FilterPaymentMethods(methods: seq<string>, payType: PVal, loggedIn: bool, postedSlot: PVal,
                                slots: map<int, Config.Slot>): (r: seq<string>)
    ensures ToInt(payType) != 31 ==> r == methods
    ensures ToInt(payType) == 31 ==> forall x ::
      (x in r <==>
        (x in methods && (x == "balance" ==> loggedIn) &&
         (PostedOverride(postedSlot, slots).Some? ==> x in PostedOverride(postedSlot, slots).value)))
  {
    if ToInt(payType) != 31 then methods
    else
      var m1 := if !loggedIn then Without(methods, ["balance"]) else methods;
      match PostedOverride(postedSlot, slots)
      case None => m1
      case Some(ov) => Within(m1, ov)
  }

  /** With the balance option off, the hook still offers `balance` to a
      logged-in buyer, while the order-time check refuses it. */
  lemma HookOffersWhatOrderRefuses(slot: Config.Slot, slots: map<int, Config.Slot>, themeMethods: seq<string>,
                                   options: map<string, PVal>)
    requires "balance" in themeMethods && !Ajax.BalanceAllowed(options)
    requires Config.PaymentOverride(slot).None?
    ensures "balance" in FilterPaymentMethods(themeMethods, PInt(31), true, PInt(0), slots)
    ensures "balance" !in AllowedPaymentMethods(slot, themeMethods, true, options)
  {
  }

  /** The checkout list the buyer is shown and the order-time check agree
      on every method for a logged-in or guest buyer. */
  lemma CheckoutListMatchesOrderCheck(slots: map<int, Config.Slot>, slotId: int, themeMethods: seq<string>,
                                      loggedIn: bool, options: map<string, PVal>, x: string)
    requires slotId != 0 && slotId in slots
    ensures x in Ajax.FilterPaymentMethodsForAd(themeMethods, PInt(31), loggedIn, options, PInt(slotId), slots) <==>
            x in AllowedPaymentMethods(slots[slotId], themeMethods, loggedIn, options)
  {
    assert ToBool(PInt(slotId));
    if x in themeMethods && (Config.PaymentOverride(slots[slotId]).Some? ==> x in Config.PaymentOverride(slots[slotId]).value) &&
       (x == "balance" ==> loggedIn && Ajax.BalanceAllowed(options)) {
      AllowedMethodsComplete(slots[slotId], themeMethods, loggedIn, options, x);
    }
  }

  // ---------------------------------------------------------------------
  // filter_order_data

  /** The form fields `filter_order_data` reads from the post. */
  datatype Post = Post(slotId: PVal, unitKey: PVal, orderToken: PVal, paymentMethod: PVal)

  datatype FilterError =
    | InvalidParams | OrderExpired | OrderInvalid | OrderMismatch | SlotNotFound | SlotDisabled
    | UnitNotFound | UnitNotAvailable | PaymentMissing | PaymentNotAllowed | InvalidPrice

  /** What the filter writes into the provider's order template. */
  datatype Filled = Filled(orderPrice: int, productId: string, postId: int, request: AdRequest)

  /** A posted text field after `sanitize_text_field`; a field that is not
      a string reads as "". */
  function PostText(v: PVal): string {
    if v.PStr? then v.str else ""
  }

  /** `intval` of a stored order-data value (an array is 1 when
      non-empty). */
  function EntryInt(e: Ajax.Entry): int {
    match e
    case Scalar(v) => ValInt(v)
    case Fields(m) => if m == map[] then 0 else 1
  }

  /** An integer entry of the stored data, 0 when unset. */
  function IntAt(d: Ajax.OrderData, k: Ajax.DataKey): int {
    if k in d then EntryInt(d[k]) else 0
  }

  /** A string entry of the stored data; an unset or non-string entry
      reads as "". */
  function TextAt(d: Ajax.OrderData, k: Ajax.DataKey): string {
    if k in d && d[k].Scalar? && d[k].v.Str? then d[k].v.s else ""
  }

  /** The legacy key the filter falls back to. */
  function LegacyKey(slotId: int, unitKey: int): string {
    "zibll_ad_order_temp_" + IntToString(slotId) + "_" + IntToString(unitKey)
  }

  /** A stored value the filter accepts: a non-empty array. */
  predicate Usable(transients: map<string, Ajax.OrderData>, k: string) {
    k in transients && transients[k] != map[]
  }

  /** The transient the filter reads: the posted token's when that is set
      and usable, else the legacy key's when usable. */
  function TransientKeyOf(post: Post, transients: map<string, Ajax.OrderData>): (k: Option<string>)
    ensures k.Some? ==> Usable(transients, k.value)
    ensures !EmptyStr(PostText(post.orderToken)) && Usable(transients, PostText(post.orderToken)) ==>
      k == Some(PostText(post.orderToken))
    ensures k.None? <==>
      !(!EmptyStr(PostText(post.orderToken)) && Usable(transients, PostText(post.orderToken))) &&
      !Usable(transients, LegacyKey(ToInt(post.slotId), ToInt(post.unitKey)))
  {
    var token := PostText(post.orderToken);
    if !EmptyStr(token) && Usable(transients, token) then Some(token)
    else
      var legacy := LegacyKey(ToInt(post.slotId), ToInt(post.unitKey));
      if Usable(transients, legacy) then Some(legacy) else None
  }

  /** The request the filter stores in the order's `other` column. */
  function RequestFrom(d: Ajax.OrderData, slotId: int, unitId: int, unitKey: int, total: int, k: string): (r: AdRequest)
    ensures r.slotId == Some(slotId) && r.unitId == Some(unitId) && r.unitKey == Some(unitKey)
    ensures r.totalPrice == Some(total) && r.transientKey == Some(k)
  {
    var months := if Ajax.DurationMonths in d then EntryInt(d[Ajax.DurationMonths]) else 1;
    var plan := TextAt(d, Ajax.PlanType);
    var ad := if Ajax.AdData in d && d[Ajax.AdData].Fields? then d[Ajax.AdData].m else map[];
    AdRequest(Some(slotId), Some(unitId), Some(unitKey), Some(months), Some(total), None, None, Some(plan),
              Some(PriceDetail(Some(IntAt(d, Ajax.BasePrice)), Some(IntAt(d, Ajax.ColorPrice)), Some(plan))),
              Some(ad), Some(k))
  }

  /** `filter_order_data`: read the signed reservation stored by
      `prepare_order`, check it against the post, the slot, the unit and
      the payment method, and fill in the provider order. The checks run
      in order and the first failure is returned. */
  function FilterOrderData(post: Post, transients: map<string, Ajax.OrderData>, slots: map<int, Config.Slot>,
                           t: Units.Table, themeMethods: seq<string>, loggedIn: bool,
                           options: map<string, PVal>, sign: Ajax.SignEnv): (r: Result<Filled, FilterError>)
    ensures ToInt(post.slotId) == 0 ==> r == Err(InvalidParams)
    ensures ToInt(post.slotId) != 0 && TransientKeyOf(post, transients).None? ==> r == Err(OrderExpired)
    ensures r.Ok? ==>
      var k := TransientKeyOf(post, transients).value;
      var d := transients[k];
      var slotId, key := ToInt(post.slotId), ToInt(post.unitKey);
      slotId != 0 &&
      (Ajax.Signature in d ==> Ajax.VerifySignature(d, sign)) &&
      IntAt(d, Ajax.SlotId) == slotId && IntAt(d, Ajax.UnitKey) == key &&
      slotId in slots && Config.Enabled(slots[slotId]) &&
      Units.Find(t, slotId, key).Some? && t.rows[Units.Find(t, slotId, key).value].status == Units.Pending &&
      !EmptyStr(PostText(post.paymentMethod)) &&
      PostText(post.paymentMethod) in AllowedPaymentMethods(slots[slotId], themeMethods, loggedIn, options) &&
      IntAt(d, Ajax.TotalPrice) > 0 &&
      r.value.orderPrice == IntAt(d, Ajax.TotalPrice) &&
      r.value.productId == IntToString(slotId) + ":" + IntToString(key) && r.value.postId == slotId &&
      r.value.request == RequestFrom(d, slotId, Units.Find(t, slotId, key).value, key, IntAt(d, Ajax.TotalPrice), k)
    ensures r.Err? && r.error == OrderInvalid ==>
      var d := transients[TransientKeyOf(post, transients).value];
      Ajax.Signature in d && !Ajax.VerifySignature(d, sign)
  {
    var slotId := ToInt(post.slotId);
    var key := ToInt(post.unitKey);
    if slotId == 0 then Err(InvalidParams)
    else match TransientKeyOf(post, transients)
      case None => Err(OrderExpired)
      case Some(k) =>
        var d := transients[k];
        if Ajax.Signature in d && !Ajax.VerifySignature(d, sign) then Err(OrderInvalid)
        else if IntAt(d, Ajax.SlotId) != slotId || IntAt(d, Ajax.UnitKey) != key then Err(OrderMismatch)
        else if slotId !in slots then Err(SlotNotFound)
        else if !Config.Enabled(slots[slotId]) then Err(SlotDisabled)
        else match Units.Find(t, slotId, key)
          case None => Err(UnitNotFound)
          case Some(id) =>
            var pm := PostText(post.paymentMethod);
            if t.rows[id].status != Units.Pending then Err(UnitNotAvailable)
            else if EmptyStr(pm) then Err(PaymentMissing)
            else if pm !in AllowedPaymentMethods(slots[slotId], themeMethods, loggedIn, options) then Err(PaymentNotAllowed)
            else
              var total := IntAt(d, Ajax.TotalPrice);
              if total <= 0 then Err(InvalidPrice)
              else Ok(Filled(total, IntToString(slotId) + ":" + IntToString(key), slotId,
                             RequestFrom(d, slotId, id, key, total, k)))
  }

  /** Data without a signature entry passes the signature step: only a
      signature that is present is checked, while `verify_order_signature`
      refuses such data. */
  lemma UnsignedDataIsAccepted(post: Post, transients: map<string, Ajax.OrderData>, slots: map<int, Config.Slot>,
                               t: Units.Table, themeMethods: seq<string>, loggedIn: bool,
                               options: map<string, PVal>, sign: Ajax.SignEnv)
    requires ToInt(post.slotId) != 0 && TransientKeyOf(post, transients).Some?
    requires Ajax.Signature !in transients[TransientKeyOf(post, transients).value]
    ensures FilterOrderData(post, transients, slots, t, themeMethods, loggedIn, options, sign) != Err(OrderInvalid)
    ensures !Ajax.VerifySignature(transients[TransientKeyOf(post, transients).value], sign)
  {
  }

  /** The filter accepts the data `prepare_order` signed: with the posted
      slot, position and token matching the stored data, the position's row
      still pending and the method allowed, the provider order is filled
      with the stored total and names the stored unit. */
  lemma SignedDataPasses(post: Post, transients: map<string, Ajax.OrderData>, slots: map<int, Config.Slot>,
                         t: Units.Table, themeMethods: seq<string>, loggedIn: bool,
                         options: map<string, PVal>, d: Ajax.OrderData, sign: Ajax.SignEnv)
    requires ToInt(post.slotId) != 0 && !EmptyStr(PostText(post.orderToken))
    requires PostText(post.orderToken) in transients && transients[PostText(post.orderToken)] == Ajax.Sign(d, sign)
    requires IntAt(d, Ajax.SlotId) == ToInt(post.slotId) && IntAt(d, Ajax.UnitKey) == ToInt(post.unitKey)
    requires IntAt(d, Ajax.TotalPrice) > 0
    requires ToInt(post.slotId) in slots && Config.Enabled(slots[ToInt(post.slotId)])
    requires Units.Find(t, ToInt(post.slotId), ToInt(post.unitKey)).Some?
    requires t.rows[Units.Find(t, ToInt(post.slotId), ToInt(post.unitKey)).value].status == Units.Pending
    requires !EmptyStr(PostText(post.paymentMethod))
    requires PostText(post.paymentMethod) in AllowedPaymentMethods(slots[ToInt(post.slotId)], themeMethods, loggedIn, options)
    ensures var r := FilterOrderData(post, transients, slots, t, themeMethods, loggedIn, options, sign);
      r.Ok? && r.value.orderPrice == IntAt(d, Ajax.TotalPrice) &&
      r.value.request.unitId == Some(Units.Find(t, ToInt(post.slotId), ToInt(post.unitKey)).value) &&
      r.value.request.transientKey == Some(PostText(post.orderToken))
  {
    var token := PostText(post.orderToken);
    var sd := Ajax.Sign(d, sign);
    Ajax.SignatureRoundTrip(d, sign);
    assert Ajax.Signature in sd;
    assert sd != map[];
    assert IntAt(sd, Ajax.SlotId) == IntAt(d, Ajax.SlotId);
    assert IntAt(sd, Ajax.UnitKey) == IntAt(d, Ajax.UnitKey);
    assert IntAt(sd, Ajax.TotalPrice) == IntAt(d, Ajax.TotalPrice);
  }

  // ---------------------------------------------------------------------
  // on_payment_success

  /** The ten content columns `set_paid` receives: every column is sent,
      the source value when set and "" otherwise (0 for the image id). */
  function PaidContent(src: map<Units.ContentField, Val>): (c: map<Units.ContentField, Val>)
    ensures forall f :: f in c
    ensures forall f | f in src && f != Units.ImageId :: c[f] == src[f]
    ensures forall f | f !in src && f != Units.ImageId :: c[f] == Str("")
  {
    forall f ensures f in Units.AllFields {
      Units.InAllFields(f);
    }
    map f | f in Units.AllFields ::
      if f == Units.ImageId then Num(if Units.ImageId in src then ValInt(src[Units.ImageId]) else 0)
      else if f in src then src[f] else Str("")
  }

  const SnapshotFields: set<Units.ContentField> :=
    {Units.CustomerName, Units.ContactType, Units.ContactValue, Units.WebsiteName, Units.WebsiteUrl}

  /** The `customer_snapshot` of a paid row: five of the content columns. */
  function SnapshotOf(c: map<Units.ContentField, Val>): (s: Ledger.Snapshot)
    ensures s.adData.None? && s.fields.Keys <= SnapshotFields
    ensures forall f | f in SnapshotFields && f in c :: f in s.fields && s.fields[f] == c[f]
  {
    Ledger.Snapshot(map f | f in SnapshotFields && f in c :: c[f], None)
  }

  /** `set_paid`'s data from an order and a content map. */
  function PaidAd(o: ProviderOrder, content: map<Units.ContentField, Val>, price: int, months: int): Units.AdData {
    Units.AdData(content, Some(Zid(o)), Some(o.orderNum.GetOr("")), Some(price), Some(months))
  }

  /** A money field of the request, else its `price_detail` entry, else 0. */
  function BaseOf(req: AdRequest): int {
    if req.basePrice.Some? then req.basePrice.value
    else if req.priceDetail.Some? && req.priceDetail.value.basePrice.Some? then req.priceDetail.value.basePrice.value
    else 0
  }

  function ColorOf(req: AdRequest): int {
    if req.colorPrice.Some? then req.colorPrice.value
    else if req.priceDetail.Some? && req.priceDetail.value.colorPrice.Some? then req.priceDetail.value.colorPrice.value
    else 0
  }

  function PlanOf(req: AdRequest): string {
    if req.planType.Some? then req.planType.value
    else if req.priceDetail.Some? && req.priceDetail.value.planType.Some? then req.priceDetail.value.planType.value
    else "custom"
  }

  /** The ledger record of a main-path payment. */
  function PaidRecord(o: ProviderOrder, req: AdRequest, unitId: int, slotId: int, months: int,
                      content: map<Units.ContentField, Val>, clock: Clock): (row: Ledger.OrderRow)
    ensures row.zid == Some(Zid(o)) && row.status == Ledger.PayPaid && row.paidAt == Some(clock.local)
    ensures row.unitId == unitId && row.totalPrice == req.totalPrice.GetOr(0)
  {
    Ledger.OrderRow(unitId, slotId, Some(Zid(o)), Some(o.payId.GetOr(0)), Some(o.orderNum.GetOr("")), o.userId.GetOr(0),
                    SnapshotOf(content), None, PlanOf(req), months, BaseOf(req), ColorOf(req), req.totalPrice.GetOr(0),
                    Some(o.payType.GetOr("")), Ledger.PayPaid, clock.local, Some(clock.local), None)
  }

  /** The record written over a matched row; columns it does not name are
      kept. */
  function Overwrite(rec: Ledger.OrderRow, row: Ledger.OrderRow, keepCreated: bool): Ledger.OrderRow {
    rec.(attemptToken := row.attemptToken, closedAt := row.closedAt,
         createdAt := if keepCreated then row.createdAt else rec.createdAt)
  }

  /** The three-step ledger write of the main path: the pending rows of the
      attempt token; else every row of the provider order (keeping its
      `created_at`); else a new row. */
  function RecordPaid(l: Ledger.Orders, rec: Ledger.OrderRow, token: string, z: int): (r: Ledger.Orders)
    requires Ledger.IdsBelowNext(l)
    ensures Ledger.IdsBelowNext(r)
    ensures !EmptyStr(token) && Ledger.PendingWithToken(l, token) != {} ==>
      r == Ledger.UpdateWhere(l, Ledger.PendingWithToken(l, token), row => Overwrite(rec, row, false))
    ensures (EmptyStr(token) || Ledger.PendingWithToken(l, token) == {}) && Ledger.RowsOf(l, z) != {} ==>
      r == Ledger.UpdateWhere(l, Ledger.RowsOf(l, z), row => Overwrite(rec, row, true))
    ensures r.rows.Keys == l.rows.Keys || r == Ledger.Append(l, rec)
    ensures r.rows.Keys != l.rows.Keys ==>
      (EmptyStr(token) || Ledger.PendingWithToken(l, token) == {}) && Ledger.RowsOf(l, z) == {}
  {
    var tokenRows := if EmptyStr(token) then {} else Ledger.PendingWithToken(l, token);
    if tokenRows != {} then Ledger.UpdateWhere(l, tokenRows, row => Overwrite(rec, row, false))
    else if Ledger.RowsOf(l, z) != {} then Ledger.UpdateWhere(l, Ledger.RowsOf(l, z), row => Overwrite(rec, row, true))
    else Ledger.Append(l, rec)
  }

  /** The main path: the order carries an ad request. */
  function MainSuccess(s: Store, o: ProviderOrder, req: AdRequest, unitWriteFails: bool, clock: Clock): (r: Store)
    requires Ledger.IdsBelowNext(s.orders)
    ensures req.slotId.GetOr(0) == 0 || req.unitId.GetOr(0) == 0 || unitWriteFails ==> r == s
    ensures r.units.nextId == s.units.nextId && r.units.rows.Keys == s.units.rows.Keys
    ensures s.orders.rows.Keys <= r.orders.rows.Keys
  {
    var slotId := req.slotId.GetOr(0);
    var unitId := req.unitId.GetOr(0);
    var months := req.durationMonths.GetOr(1);
    if slotId == 0 || unitId == 0 || unitWriteFails then s
    else
      var content := PaidContent(req.adData.GetOr(map[]));
      var t1 := Units.SetPaid(s.units, unitId, PaidAd(o, content, req.totalPrice.GetOr(0), months), months, clock);
      var l1 := RecordPaid(s.orders, PaidRecord(o, req, unitId, slotId, months, content, clock),
                           req.transientKey.GetOr(""), Zid(o));
      var tr := if req.transientKey.Some? then s.transients - {req.transientKey.value} else s.transients;
      Store(t1, l1, tr)
  }

  /** The slot and position named by a `slot:unit` product id, split at
      its first colon; `None` without a colon. */
  function ProductTarget(productId: string): (r: Option<(int, int)>)
    ensures r.Some? <==> !EmptyStr(productId) && Compat.StrPos(productId, ":", 0).Some?
  {
    if EmptyStr(productId) then None
    else match Compat.StrPos(productId, ":", 0)
      case None => None
      case Some(i) =>
        assert Compat.OccursAt(productId, ":", i);
        Some((IntVal(productId[..i]), IntVal(productId[i + 1..])))
  }

  /** The ledger row the fallback path inserts. */
  function FallbackRow(o: ProviderOrder, u: Units.Unit, unitId: int, slotId: int,
                       content: map<Units.ContentField, Val>, clock: Clock): (row: Ledger.OrderRow)
    ensures row.zid == Some(Zid(o)) && row.status == Ledger.PayPaid && row.unitId == unitId
  {
    var total := if o.orderPrice.Some? then o.orderPrice.value else if o.payPrice.Some? then o.payPrice.value else u.price;
    Ledger.OrderRow(unitId, slotId, Some(Zid(o)), Some(o.payId.GetOr(0)), Some(o.orderNum.GetOr("")), o.userId.GetOr(0),
                    SnapshotOf(content), None, "custom", u.durationMonths, total, 0, total,
                    Some(o.payType.GetOr("")), Ledger.PayPaid, clock.local, Some(clock.local), None)
  }

  /** The payment columns the fallback path writes over existing rows. */
  function MarkPaid(row: Ledger.OrderRow, o: ProviderOrder, clock: Clock): (r: Ledger.OrderRow)
    ensures r.zid == row.zid && r.status == Ledger.PayPaid
  {
    row.(paymentId := Some(o.payId.GetOr(0)), orderNum := Some(o.orderNum.GetOr("")),
         paymentMethod := Some(o.payType.GetOr("")), status := Ledger.PayPaid, paidAt := Some(clock.local))
  }

  /** The fallback path once the unit is found: `set_paid` with the
      unit's own content, then one ledger row per provider order (updated
      when one exists, else inserted). A missing provider id (0) always
      inserts. */
  function FallbackPay(s: Store, o: ProviderOrder, id: int, slotId: int, clock: Clock): (r: Store)
    requires Ledger.IdsBelowNext(s.orders) && id in s.units.rows
    ensures r.transients == s.transients && Ledger.IdsBelowNext(r.orders)
    ensures Zid(o) != 0 && Ledger.RowsOf(s.orders, Zid(o)) != {} ==>
      r.orders == Ledger.UpdateWhere(s.orders, Ledger.RowsOf(s.orders, Zid(o)), row => MarkPaid(row, o, clock))
    ensures !(Zid(o) != 0 && Ledger.RowsOf(s.orders, Zid(o)) != {}) ==>
      r.orders == Ledger.Append(s.orders, FallbackRow(o, s.units.rows[id], id, slotId, PaidContent(s.units.rows[id].content), clock))
    ensures r.units == Units.SetPaid(s.units, id, PaidAd(o, PaidContent(s.units.rows[id].content), s.units.rows[id].price,
                                                         s.units.rows[id].durationMonths), s.units.rows[id].durationMonths, clock)
  {
    var u := s.units.rows[id];
    var content := PaidContent(u.content);
    var t1 := Units.SetPaid(s.units, id, PaidAd(o, content, u.price, u.durationMonths), u.durationMonths, clock);
    var z := Zid(o);
    var l1 := if z != 0 && Ledger.RowsOf(s.orders, z) != {}
              then Ledger.UpdateWhere(s.orders, Ledger.RowsOf(s.orders, z), row => MarkPaid(row, o, clock))
              else Ledger.Append(s.orders, FallbackRow(o, u, id, slotId, content, clock));
    Store(t1, l1, s.transients)
  }

  /** The position of the fallback path: the product id's slot and
      position when both are known and the slot is non-zero. */
  function FallbackTarget(o: ProviderOrder): Option<(int, int)> {
    match ProductTarget(o.productId.GetOr(""))
    case None => None
    case Some((slotId, key)) => if slotId == 0 then None else Some((slotId, key))
  }

  /** The fallback path: no ad request, so the position comes from the
      product id and the content from the unit itself. */
  function FallbackSuccess(s: Store, o: ProviderOrder, unitWriteFails: bool, clock: Clock): (r: Store)
    requires Ledger.IdsBelowNext(s.orders)
    ensures r.transients == s.transients && Ledger.IdsBelowNext(r.orders)
    ensures unitWriteFails ==> r == s
    ensures r.units.nextId == s.units.nextId && r.units.rows.Keys == s.units.rows.Keys
    ensures s.orders.rows.Keys <= r.orders.rows.Keys
  {
    if unitWriteFails then s
    else match FallbackTarget(o)
      case None => s
      case Some((slotId, key)) =>
        match Units.Find(s.units, slotId, key)
        case None => s
        case Some(id) => FallbackPay(s, o, id, slotId, clock)
  }

  /** `on_payment_success`. Orders that show no sign of being ad orders are
      ignored; a failed unit write (`unitWriteFails`) ends the callback
      before the ledger is touched. */
  function OnPaymentSuccess(s: Store, o: ProviderOrder, unitWriteFails: bool, clock: Clock): (r: Store)
    requires Ledger.IdsBelowNext(s.orders)
    ensures !IsAdOrder(o) ==> r == s
    ensures unitWriteFails ==> r == s
    ensures Ledger.IdsBelowNext(r.orders)
    ensures r.units.nextId == s.units.nextId && r.units.rows.Keys == s.units.rows.Keys
    ensures s.orders.rows.Keys <= r.orders.rows.Keys
  {
    if !IsAdOrder(o) then s
    else match RequestOf(o)
      case None => FallbackSuccess(s, o, unitWriteFails, clock)
      case Some(req) => MainSuccess(s, o, req, unitWriteFails, clock)
  }

  /** A unit sold to provider order `z` at `clock` for `months` thirty-day
      months, showing exactly `content`. */
  predicate PaidFor(v: Units.Unit, z: int, clock: Clock, months: int, content: map<Units.ContentField, Val>) {
    v.status == Units.Paid && v.orderId == Some(z) &&
    v.startsAt == Some(clock.unix) && v.endsAt == Some(clock.unix + months * MonthSeconds) &&
    v.content == content
  }

  /** The main path marks the named unit paid with the order's content and
      term, and leaves every other unit as it was. */
  lemma MainPathPaysUnit(s: Store, o: ProviderOrder, clock: Clock)
    requires Ledger.IdsBelowNext(s.orders) && RequestOf(o).Some?
    requires RequestOf(o).value.slotId.GetOr(0) != 0
    requires RequestOf(o).value.unitId.Some? && RequestOf(o).value.unitId.value != 0
    requires RequestOf(o).value.unitId.value in s.units.rows
    ensures var req := RequestOf(o).value;
      var t1 := OnPaymentSuccess(s, o, false, clock).units;
      PaidFor(t1.rows[req.unitId.value], Zid(o), clock, req.durationMonths.GetOr(1), PaidContent(req.adData.GetOr(map[]))) &&
      (forall j | j in s.units.rows && j != req.unitId.value :: t1.rows[j] == s.units.rows[j])
  {
    SuccessTakesMainPath(s, o, false, clock);
    MainSuccessPaysUnit(s, o, RequestOf(o).value, clock);
  }

  /** An ad order that carries a request takes the main path. */
  lemma SuccessTakesMainPath(s: Store, o: ProviderOrder, unitWriteFails: bool, clock: Clock)
    requires Ledger.IdsBelowNext(s.orders) && RequestOf(o).Some?
    ensures OnPaymentSuccess(s, o, unitWriteFails, clock) == MainSuccess(s, o, RequestOf(o).value, unitWriteFails, clock)
  {
  }

  /** `MainSuccess` with a named slot and unit writes the unit as paid
      with all ten content columns of the request. */
  lemma MainSuccessPaysUnit(s: Store, o: ProviderOrder, req: AdRequest, clock: Clock)
    requires Ledger.IdsBelowNext(s.orders)
    requires req.slotId.GetOr(0) != 0 && req.unitId.Some? && req.unitId.value != 0
    requires req.unitId.value in s.units.rows
    ensures var t1 := MainSuccess(s, o, req, false, clock).units;
      PaidFor(t1.rows[req.unitId.value], Zid(o), clock, req.durationMonths.GetOr(1), PaidContent(req.adData.GetOr(map[]))) &&
      (forall j | j in s.units.rows && j != req.unitId.value :: t1.rows[j] == s.units.rows[j])
  {
    var id := req.unitId.value;
    var months := req.durationMonths.GetOr(1);
    var ad := PaidAd(o, PaidContent(req.adData.GetOr(map[])), req.totalPrice.GetOr(0), months);
    assert MainSuccess(s, o, req, false, clock).units == Units.SetPaid(s.units, id, ad, months, clock);
    SetPaidFullContent(s.units, id, ad, months, clock);
  }

  /** `set_paid` with all ten content columns replaces the row's content
      outright. */
  lemma SetPaidFullContent(t: Units.Table, id: int, ad: Units.AdData, months: int, clock: Clock)
    requires id in t.rows && forall f :: f in ad.content
    ensures Units.SetPaid(t, id, ad, months, clock).rows[id].content == ad.content
  {
    var v := Units.SetPaid(t, id, ad, months, clock).rows[id];
    assert v.content.Keys == ad.content.Keys;
  }

  /** The buyer's name is not part of the ad data `prepare_order` stores,
      so a main-path payment writes "" into the unit's customer name. */
  lemma MainPathBlanksCustomerName(s: Store, o: ProviderOrder, clock: Clock)
    requires Ledger.IdsBelowNext(s.orders) && RequestOf(o).Some?
    requires RequestOf(o).value.slotId.GetOr(0) != 0
    requires RequestOf(o).value.unitId.Some? && RequestOf(o).value.unitId.value != 0
    requires RequestOf(o).value.unitId.value in s.units.rows
    requires RequestOf(o).value.adData.Some? && Units.CustomerName !in RequestOf(o).value.adData.value
    ensures OnPaymentSuccess(s, o, false, clock).units.rows[RequestOf(o).value.unitId.value].content[Units.CustomerName] == Str("")
  {
    MainPathPaysUnit(s, o, clock);
  }

  /** The main path's ledger write keeps the ledger free of duplicates,
      provided the attempt token names at most one pending row and no
      other row already carries the provider order. */
  lemma RecordPaidKeepsUnique(l: Ledger.Orders, rec: Ledger.OrderRow, token: string, z: int)
    requires Ledger.IdsBelowNext(l) && Ledger.UniqueProviderIds(l) && rec.zid == Some(z)
    requires !EmptyStr(token) ==>
      forall a, b | a in Ledger.PendingWithToken(l, token) && b in l.rows && a != b ::
        b !in Ledger.PendingWithToken(l, token) && !Ledger.Carries(l.rows[b], z)
    ensures Ledger.UniqueProviderIds(RecordPaid(l, rec, token, z))
  {
    var tokenRows := if EmptyStr(token) then {} else Ledger.PendingWithToken(l, token);
    if tokenRows != {} {
      NonEmptyHasMember(tokenRows);
      var a :| a in tokenRows;
      Ledger.UpdateOneKeepsUnique(l, tokenRows, row => Overwrite(rec, row, false), a, z);
    } else if Ledger.RowsOf(l, z) != {} {
      Ledger.UpdateKeepingIdsKeepsUnique(l, Ledger.RowsOf(l, z), row => Overwrite(rec, row, true));
    } else {
      Ledger.AppendKeepsUnique(l, rec);
    }
  }

  /** A main-path payment keeps the store valid: the unit table through
      `set_paid`, the ledger under the token condition of
      `RecordPaidKeepsUnique`. */
  lemma MainSuccessKeepsValid(s: Store, o: ProviderOrder, req: AdRequest, unitWriteFails: bool, clock: Clock)
    requires Valid(s)
    requires var tok := req.transientKey.GetOr("");
      !EmptyStr(tok) ==>
        forall a, b | a in Ledger.PendingWithToken(s.orders, tok) && b in s.orders.rows && a != b ::
          b !in Ledger.PendingWithToken(s.orders, tok) && !Ledger.Carries(s.orders.rows[b], Zid(o))
    ensures Valid(MainSuccess(s, o, req, unitWriteFails, clock))
  {
    var r := MainSuccess(s, o, req, unitWriteFails, clock);
    if r != s {
      var months := req.durationMonths.GetOr(1);
      var content := PaidContent(req.adData.GetOr(map[]));
      Units.TransitionsKeepValid(s.units, req.unitId.GetOr(0), PaidAd(o, content, req.totalPrice.GetOr(0), months),
                                 months, false, 0, 0, 0, clock);
      RecordPaidKeepsUnique(s.orders, PaidRecord(o, req, req.unitId.GetOr(0), req.slotId.GetOr(0), months, content, clock),
                            req.transientKey.GetOr(""), Zid(o));
    }
  }

  /** A fallback payment keeps the store valid. */
  lemma FallbackSuccessKeepsValid(s: Store, o: ProviderOrder, unitWriteFails: bool, clock: Clock)
    requires Valid(s)
    ensures Valid(FallbackSuccess(s, o, unitWriteFails, clock))
  {
    var r := FallbackSuccess(s, o, unitWriteFails, clock);
    if r != s {
      var (slotId, key) := FallbackTarget(o).value;
      var id := Units.Find(s.units, slotId, key).value;
      var u := s.units.rows[id];
      var content := PaidContent(u.content);
      var z := Zid(o);
      Units.TransitionsKeepValid(s.units, id, PaidAd(o, content, u.price, u.durationMonths), u.durationMonths,
                                 false, 0, 0, 0, clock);
      if z != 0 && Ledger.RowsOf(s.orders, z) != {} {
        Ledger.UpdateKeepingIdsKeepsUnique(s.orders, Ledger.RowsOf(s.orders, z), row => MarkPaid(row, o, clock));
      } else {
        Ledger.AppendKeepsUnique(s.orders, FallbackRow(o, u, id, slotId, content, clock));
      }
    }
  }

  /** After a main-path write no pending row is left under the attempt
      token, and some row carries the provider order. */
  lemma RecordPaidLeavesTrace(l: Ledger.Orders, rec: Ledger.OrderRow, token: string, z: int)
    requires Ledger.IdsBelowNext(l) && rec.zid == Some(z) && rec.status == Ledger.PayPaid
    ensures var l1 := RecordPaid(l, rec, token, z);
      (EmptyStr(token) || Ledger.PendingWithToken(l1, token) == {}) && Ledger.RowsOf(l1, z) != {}
  {
    var l1 := RecordPaid(l, rec, token, z);
    var tokenRows := if EmptyStr(token) then {} else Ledger.PendingWithToken(l, token);
    if tokenRows != {} {
      NonEmptyHasMember(tokenRows);
      var a :| a in tokenRows;
      assert a in Ledger.RowsOf(l1, z);
    } else if Ledger.RowsOf(l, z) != {} {
      NonEmptyHasMember(Ledger.RowsOf(l, z));
      var a :| a in Ledger.RowsOf(l, z);
      assert a in Ledger.RowsOf(l1, z);
    } else {
      assert l.nextId in Ledger.RowsOf(l1, z);
    }
    if !EmptyStr(token) {
      forall id | id in l1.rows
        ensures id !in Ledger.PendingWithToken(l1, token)
      {
        if id in l.rows && id !in tokenRows && id !in Ledger.RowsOf(l, z) {
          assert l1.rows[id] == l.rows[id];
        }
      }
    }
  }

  /** A repeated main-path callback for the same order adds no ledger
      row: the first left a row carrying the order and no pending row
      under the token, so the second updates in place. */
  lemma MainReplayAddsNoRow(s: Store, o: ProviderOrder, req: AdRequest, clock: Clock, clock2: Clock)
    requires Ledger.IdsBelowNext(s.orders)
    ensures var s1 := MainSuccess(s, o, req, false, clock);
      MainSuccess(s1, o, req, false, clock2).orders.rows.Keys == s1.orders.rows.Keys
  {
    var slotId, unitId := req.slotId.GetOr(0), req.unitId.GetOr(0);
    if slotId != 0 && unitId != 0 {
      var s1 := MainSuccess(s, o, req, false, clock);
      var months := req.durationMonths.GetOr(1);
      var content := PaidContent(req.adData.GetOr(map[]));
      var tok := req.transientKey.GetOr("");
      var rec := PaidRecord(o, req, unitId, slotId, months, content, clock);
      assert s1.orders == RecordPaid(s.orders, rec, tok, Zid(o));
      RecordPaidLeavesTrace(s.orders, rec, tok, Zid(o));
      var rec2 := PaidRecord(o, req, unitId, slotId, months, content, clock2);
      assert MainSuccess(s1, o, req, false, clock2).orders == RecordPaid(s1.orders, rec2, tok, Zid(o));
    }
  }

  /** The fallback's ledger write leaves a row carrying the provider
      order. */
  lemma FallbackWriteLeavesTrace(l: Ledger.Orders, o: ProviderOrder, row: Ledger.OrderRow, clock: Clock)
    requires Ledger.IdsBelowNext(l) && Zid(o) != 0 && row.zid == Some(Zid(o))
    ensures var z := Zid(o);
      var l1 := if Ledger.RowsOf(l, z) != {} then Ledger.UpdateWhere(l, Ledger.RowsOf(l, z), r => MarkPaid(r, o, clock))
                else Ledger.Append(l, row);
      Ledger.RowsOf(l1, z) != {}
  {
    var z := Zid(o);
    if Ledger.RowsOf(l, z) != {} {
      NonEmptyHasMember(Ledger.RowsOf(l, z));
      var a :| a in Ledger.RowsOf(l, z);
      assert a in Ledger.RowsOf(Ledger.UpdateWhere(l, Ledger.RowsOf(l, z), r => MarkPaid(r, o, clock)), z);
    } else {
      assert l.nextId in Ledger.RowsOf(Ledger.Append(l, row), z);
    }
  }

  /** A fallback payment leaves every unit at its position and some
      ledger row carrying the provider order. */
  lemma FallbackPayLeavesTrace(s: Store, o: ProviderOrder, id: int, slotId: int, clock: Clock)
    requires Ledger.IdsBelowNext(s.orders) && id in s.units.rows && Zid(o) != 0
    ensures var r := FallbackPay(s, o, id, slotId, clock);
      r.units.nextId == s.units.nextId && r.units.rows.Keys == s.units.rows.Keys &&
      (forall j | j in s.units.rows :: Units.SameCell(s.units.rows[j], r.units.rows[j])) &&
      Ledger.RowsOf(r.orders, Zid(o)) != {}
  {
    var u := s.units.rows[id];
    var z := Zid(o);
    var r := FallbackPay(s, o, id, slotId, clock);
    var row := FallbackRow(o, u, id, slotId, PaidContent(u.content), clock);
    FallbackWriteLeavesTrace(s.orders, o, row, clock);
    assert r.orders == if Ledger.RowsOf(s.orders, z) != {}
                       then Ledger.UpdateWhere(s.orders, Ledger.RowsOf(s.orders, z), x => MarkPaid(x, o, clock))
                       else Ledger.Append(s.orders, row);
  }

  /** A repeated fallback callback for a known provider order adds no
      ledger row: the unit is found at the same position again and the
      row written the first time is updated. */
  lemma FallbackReplayAddsNoRow(s: Store, o: ProviderOrder, clock: Clock, clock2: Clock)
    requires Ledger.IdsBelowNext(s.orders) && Zid(o) != 0
    ensures var s1 := FallbackSuccess(s, o, false, clock);
      FallbackSuccess(s1, o, false, clock2).orders.rows.Keys == s1.orders.rows.Keys
  {
    if FallbackTarget(o).Some? {
      var (slotId, key) := FallbackTarget(o).value;
      var found := Units.Find(s.units, slotId, key);
      if found.Some? {
        var s1 := FallbackPay(s, o, found.value, slotId, clock);
        FallbackPayLeavesTrace(s, o, found.value, slotId, clock);
        Units.FindSameCells(s.units, s1.units, slotId, key);
        assert FallbackSuccess(s1, o, false, clock2) == FallbackPay(s1, o, found.value, slotId, clock2);
      }
    }
  }

  /** Replaying a success callback (the provider fires several hooks, and
      the reconciliation replays missed ones) adds no second ledger row,
      unless the order has neither an ad request nor a provider id. */
  lemma ReplayAddsNoRow(s: Store, o: ProviderOrder, clock: Clock, clock2: Clock)
    requires Ledger.IdsBelowNext(s.orders)
    requires RequestOf(o).Some? || Zid(o) != 0
    ensures var s1 := OnPaymentSuccess(s, o, false, clock);
      OnPaymentSuccess(s1, o, false, clock2).orders.rows.Keys == s1.orders.rows.Keys
  {
    if IsAdOrder(o) {
      if RequestOf(o).Some? {
        MainReplayAddsNoRow(s, o, RequestOf(o).value, clock, clock2);
      } else {
        FallbackReplayAddsNoRow(s, o, clock, clock2);
      }
    }
  }

  /** A failed unit write ends the callback: no ledger row is written. */
  lemma FailedUnitWriteWritesNoRow(s: Store, o: ProviderOrder, clock: Clock)
    requires Ledger.IdsBelowNext(s.orders)
    ensures OnPaymentSuccess(s, o, true, clock) == s
  {
  }

  /** An order whose main-path callback writes: it names a slot and a
      unit. */
  predicate MainLands(o: ProviderOrder) {
    RequestOf(o).Some? && RequestOf(o).value.slotId.GetOr(0) != 0 && RequestOf(o).value.unitId.GetOr(0) != 0
  }

  /** `l1` differs from `l` only in rows that were pending or are new, and
      each of those is now a paid row carrying provider order `z`. */
  ghost predicate TouchesOnly(l: Ledger.Orders, l1: Ledger.Orders, z: int) {
    forall id | id in l1.rows ::
      (id in l.rows && l1.rows[id] == l.rows[id]) ||
      ((id !in l.rows || l.rows[id].status == Ledger.PayPending) &&
       l1.rows[id].zid == Some(z) && l1.rows[id].status == Ledger.PayPaid)
  }

  /** What a write that touches only order `z`'s rows leaves alone: other
      orders' rows (it may take pending rows from them, never give), and
      every row that was not pending. */
  lemma TouchesOnlyFacts(l: Ledger.Orders, l1: Ledger.Orders, z: int)
    requires TouchesOnly(l, l1, z) && l.rows.Keys <= l1.rows.Keys && Ledger.RowsOf(l, z) == {}
    ensures forall y | y != z :: Ledger.RowsOf(l1, y) <= Ledger.RowsOf(l, y)
    ensures forall id | id in l.rows && l.rows[id].status != Ledger.PayPending :: l1.rows[id] == l.rows[id]
    ensures forall id | id in Ledger.RowsOf(l1, z) :: l1.rows[id].status == Ledger.PayPaid
  {
    forall y, id | y != z && id in Ledger.RowsOf(l1, y)
      ensures id in Ledger.RowsOf(l, y)
    {
      assert l1.rows[id].zid == Some(y);
    }
  }

  /** Writing only paid rows keeps at most one pending row per token. */
  lemma TouchesOnlyKeepsTokens(l: Ledger.Orders, l1: Ledger.Orders, z: int)
    requires Ledger.TokensUnique(l) && TouchesOnly(l, l1, z)
    ensures Ledger.TokensUnique(l1)
  {
  }

  /** With no row carrying `z` yet, the main path's ledger write turns the
      token's pending rows, or a new row, into paid rows carrying `z`. */
  lemma RecordPaidTouchesOnly(l: Ledger.Orders, rec: Ledger.OrderRow, token: string, z: int)
    requires Ledger.IdsBelowNext(l) && rec.zid == Some(z) && rec.status == Ledger.PayPaid
    requires Ledger.RowsOf(l, z) == {}
    ensures TouchesOnly(l, RecordPaid(l, rec, token, z), z)
  {
  }

  /** The main path for an order no ledger row carries yet. */
  lemma MainSuccessOnUnrecordedOrder(s: Store, o: ProviderOrder, req: AdRequest, unitWriteFails: bool, clock: Clock)
    requires Valid(s) && Ledger.TokensUnique(s.orders)
    requires Zid(o) > 0 && Ledger.RowsOf(s.orders, Zid(o)) == {}
    ensures var r := MainSuccess(s, o, req, unitWriteFails, clock);
      Valid(r) && TouchesOnly(s.orders, r.orders, Zid(o)) &&
      (!unitWriteFails && req.slotId.GetOr(0) != 0 && req.unitId.GetOr(0) != 0 ==> Ledger.RowsOf(r.orders, Zid(o)) != {})
  {
    MainSuccessKeepsValid(s, o, req, unitWriteFails, clock);
    var slotId, unitId := req.slotId.GetOr(0), req.unitId.GetOr(0);
    if slotId != 0 && unitId != 0 && !unitWriteFails {
      var months := req.durationMonths.GetOr(1);
      var content := PaidContent(req.adData.GetOr(map[]));
      var tok := req.transientKey.GetOr("");
      var rec := PaidRecord(o, req, unitId, slotId, months, content, clock);
      assert MainSuccess(s, o, req, unitWriteFails, clock).orders == RecordPaid(s.orders, rec, tok, Zid(o));
      RecordPaidTouchesOnly(s.orders, rec, tok, Zid(o));
      RecordPaidLeavesTrace(s.orders, rec, tok, Zid(o));
    }
  }

  /** The fallback path for an order no ledger row carries yet: it can
      only append. */
  lemma FallbackSuccessOnUnrecordedOrder(s: Store, o: ProviderOrder, unitWriteFails: bool, clock: Clock)
    requires Valid(s)
    requires Zid(o) > 0 && Ledger.RowsOf(s.orders, Zid(o)) == {}
    ensures var r := FallbackSuccess(s, o, unitWriteFails, clock);
      Valid(r) && TouchesOnly(s.orders, r.orders, Zid(o))
  {
    FallbackSuccessKeepsValid(s, o, unitWriteFails, clock);
    if !unitWriteFails && FallbackTarget(o).Some? {
      var (slotId, key) := FallbackTarget(o).value;
      var found := Units.Find(s.units, slotId, key);
      if found.Some? {
        var u := s.units.rows[found.value];
        var row := FallbackRow(o, u, found.value, slotId, PaidContent(u.content), clock);
        assert FallbackSuccess(s, o, unitWriteFails, clock) == FallbackPay(s, o, found.value, slotId, clock);
        AppendTouchesOnly(s.orders, row, Zid(o));
      }
    }
  }

  lemma AppendTouchesOnly(l: Ledger.Orders, row: Ledger.OrderRow, z: int)
    requires Ledger.IdsBelowNext(l) && row.zid == Some(z) && row.status == Ledger.PayPaid
    ensures TouchesOnly(l, Ledger.Append(l, row), z)
  {
  }

  /** The success callback for an order no ledger row carries yet (what
      the reconciliation replays): it keeps the store valid and one pending
      row per token, it writes only its own order's paid rows over pending
      rows or as new ones, and a main-path order whose unit write succeeds
      ends with a row. */
  lemma SuccessOnUnrecordedOrder(s: Store, o: ProviderOrder, unitWriteFails: bool, clock: Clock)
    requires Valid(s) && Ledger.TokensUnique(s.orders)
    requires Zid(o) > 0 && Ledger.RowsOf(s.orders, Zid(o)) == {}
    ensures var r := OnPaymentSuccess(s, o, unitWriteFails, clock);
      Valid(r) && Ledger.TokensUnique(r.orders) && TouchesOnly(s.orders, r.orders, Zid(o)) &&
      (!unitWriteFails && MainLands(o) ==> Ledger.RowsOf(r.orders, Zid(o)) != {})
  {
    var r := OnPaymentSuccess(s, o, unitWriteFails, clock);
    if IsAdOrder(o) {
      if RequestOf(o).Some? {
        SuccessTakesMainPath(s, o, unitWriteFails, clock);
        MainSuccessOnUnrecordedOrder(s, o, RequestOf(o).value, unitWriteFails, clock);
      } else {
        FallbackSuccessOnUnrecordedOrder(s, o, unitWriteFails, clock);
      }
    }
    TouchesOnlyKeepsTokens(s.orders, r.orders, Zid(o));
  }

  // ---------------------------------------------------------------------
  // on_order_created

  /** The provider id, number and buyer the created callback writes. */
  function Attach(row: Ledger.OrderRow, o: ProviderOrder): (r: Ledger.OrderRow)
    ensures r.zid == Some(Zid(o)) && r.status == row.status
  {
    row.(zid := Some(Zid(o)), orderNum := Some(o.orderNum.GetOr("")), userId := o.userId.GetOr(0))
  }

  /** The request the created callback reads: present whenever the order
      has one, even an empty one. */
  function CreatedRequest(o: ProviderOrder): AdRequest {
    o.request.GetOr(NoRequest)
  }

  function CreatedToken(o: ProviderOrder): string {
    CreatedRequest(o).transientKey.GetOr("")
  }

  /** The slot: the request's, else the order's post id, else 0. */
  function CreatedSlot(o: ProviderOrder): int {
    if CreatedRequest(o).slotId.Some? then CreatedRequest(o).slotId.value else o.postId.GetOr(0)
  }

  function CreatedUnit(o: ProviderOrder): int {
    CreatedRequest(o).unitId.GetOr(0)
  }

  /** A row the fallback query may pick: pending, on the unit and slot
      when those are known (non-zero). */
  predicate Pickable(row: Ledger.OrderRow, unitId: int, slotId: int) {
    row.status == Ledger.PayPending && (unitId == 0 || row.unitId == unitId) && (slotId == 0 || row.slotId == slotId)
  }

  /** `ORDER BY id DESC LIMIT 1` over the pickable rows with id at most `i`. */
  function LatestPickable(l: Ledger.Orders, unitId: int, slotId: int, i: int): (r: Option<int>)
    ensures r.Some? ==> r.value in l.rows && r.value <= i && Pickable(l.rows[r.value], unitId, slotId)
    ensures r.Some? ==> forall j | j in l.rows && r.value < j <= i :: !Pickable(l.rows[j], unitId, slotId)
    ensures r.None? ==> forall j | j in l.rows && 1 <= j <= i :: !Pickable(l.rows[j], unitId, slotId)
    decreases i
  {
    if i < 1 then None
    else if i in l.rows && Pickable(l.rows[i], unitId, slotId) then Some(i)
    else LatestPickable(l, unitId, slotId, i - 1)
  }

  function AdText(ad: map<Units.ContentField, Val>, f: Units.ContentField): Val {
    if f in ad then ad[f] else Str("")
  }

  /** The pending row inserted when nothing matched. Its customer name is
      taken from the website name. */
  function NewPendingRow(o: ProviderOrder, clock: Clock): (row: Ledger.OrderRow)
    ensures row.zid == Some(Zid(o)) && row.status == Ledger.PayPending && row.attemptToken.None?
  {
    var req := CreatedRequest(o);
    var ad := req.adData.GetOr(map[]);
    var cs := map[Units.CustomerName := AdText(ad, Units.WebsiteName), Units.ContactType := AdText(ad, Units.ContactType),
                  Units.ContactValue := AdText(ad, Units.ContactValue), Units.WebsiteName := AdText(ad, Units.WebsiteName),
                  Units.WebsiteUrl := AdText(ad, Units.WebsiteUrl)];
    var price := o.orderPrice.GetOr(0);
    Ledger.OrderRow(CreatedUnit(o), CreatedSlot(o), Some(Zid(o)), None, Some(o.orderNum.GetOr("")), o.userId.GetOr(0),
                    Ledger.Snapshot(cs, None), None, "custom", req.durationMonths.GetOr(1), price, 0, price,
                    Some(o.payType.GetOr("")), Ledger.PayPending, clock.local, None, None)
  }

  /** The pending rows under the order's attempt token. */
  function TokenRows(l: Ledger.Orders, o: ProviderOrder): (ids: set<int>)
    ensures forall id | id in ids :: id in l.rows && l.rows[id].status == Ledger.PayPending
  {
    if EmptyStr(CreatedToken(o)) then {} else Ledger.PendingWithToken(l, CreatedToken(o))
  }

  /** `on_order_created` as written. Each step moves on when the previous
      UPDATE reports no affected rows, and MySQL reports only rows whose
      values changed: a row that already carries the order counts as
      not found. */
  function OnOrderCreatedAsWritten(l: Ledger.Orders, o: ProviderOrder, clock: Clock): (r: Ledger.Orders)
    requires Ledger.IdsBelowNext(l)
    ensures Ledger.IdsBelowNext(r)
    ensures !IsAdOrder(o) ==> r == l
  {
    if !IsAdOrder(o) then l
    else
      var tokenRows := TokenRows(l, o);
      if exists id | id in tokenRows :: Attach(l.rows[id], o) != l.rows[id] then
        Ledger.UpdateWhere(l, tokenRows, row => Attach(row, o))
      else match LatestPickable(l, CreatedUnit(o), CreatedSlot(o), l.nextId - 1)
        case Some(id) =>
          if Attach(l.rows[id], o) != l.rows[id] then Ledger.UpdateWhere(l, {id}, row => Attach(row, o))
          else Ledger.Append(l, NewPendingRow(o, clock))
        case None => Ledger.Append(l, NewPendingRow(o, clock))
  }

  /** `on_order_created` with each step going by the rows it matched, and
      an order the ledger already records left alone. */
  function OnOrderCreated(l: Ledger.Orders, o: ProviderOrder, clock: Clock): (r: Ledger.Orders)
    requires Ledger.IdsBelowNext(l)
    ensures Ledger.IdsBelowNext(r)
    ensures !IsAdOrder(o) ==> r == l
    ensures Zid(o) > 0 && Ledger.RowsOf(l, Zid(o)) != {} ==> r == l
    ensures IsAdOrder(o) ==> Ledger.RowsOf(r, Zid(o)) != {}
  {
    if !IsAdOrder(o) || (Zid(o) > 0 && Ledger.RowsOf(l, Zid(o)) != {}) then l
    else
      var tokenRows := TokenRows(l, o);
      if tokenRows != {} then
        NonEmptyHasMember(tokenRows);
        var a :| a in tokenRows;
        var r := Ledger.UpdateWhere(l, tokenRows, row => Attach(row, o));
        assert a in Ledger.RowsOf(r, Zid(o));
        r
      else match LatestPickable(l, CreatedUnit(o), CreatedSlot(o), l.nextId - 1)
        case Some(id) =>
          var r := Ledger.UpdateWhere(l, {id}, row => Attach(row, o));
          assert id in Ledger.RowsOf(r, Zid(o));
          r
        case None =>
          var r := Ledger.Append(l, NewPendingRow(o, clock));
          assert l.nextId in Ledger.RowsOf(r, Zid(o));
          r
  }

  /** The corrected callback never gives a provider order a second row,
      as long as no two pending rows share an attempt token. */
  lemma OrderCreatedKeepsUnique(l: Ledger.Orders, o: ProviderOrder, clock: Clock)
    requires Ledger.IdsBelowNext(l) && Ledger.UniqueProviderIds(l) && Ledger.TokensUnique(l)
    ensures Ledger.UniqueProviderIds(OnOrderCreated(l, o, clock))
  {
    if IsAdOrder(o) && !(Zid(o) > 0 && Ledger.RowsOf(l, Zid(o)) != {}) {
      var z := Zid(o);
      assert forall b | b in l.rows :: !Ledger.Carries(l.rows[b], z);
      var tokenRows := TokenRows(l, o);
      if tokenRows != {} {
        NonEmptyHasMember(tokenRows);
        var a :| a in tokenRows;
        Ledger.UpdateOneKeepsUnique(l, tokenRows, row => Attach(row, o), a, z);
      } else {
        match LatestPickable(l, CreatedUnit(o), CreatedSlot(o), l.nextId - 1)
        case Some(id) =>
          Ledger.UpdateOneKeepsUnique(l, {id}, row => Attach(row, o), id, z);
        case None =>
          Ledger.AppendKeepsUnique(l, NewPendingRow(o, clock));
      }
    }
  }

  /** A repeated created event (the callback is hooked under two names)
      changes nothing the second time. */
  lemma OrderCreatedIdempotent(l: Ledger.Orders, o: ProviderOrder, clock: Clock, clock2: Clock)
    requires Ledger.IdsBelowNext(l) && Zid(o) > 0
    ensures OnOrderCreated(OnOrderCreated(l, o, clock), o, clock2) == OnOrderCreated(l, o, clock)
  {
  }

  /** The counterexample's ledger: one pending row under token "t" for
      unit 7 of slot 3, not yet linked to a provider order. */
  const DupRow: Ledger.OrderRow := Ledger.OrderRow(7, 3, None, None, None, 0, Ledger.Snapshot(map[], None), Some("t"),
                                                   "custom", 1, 100, 0, 100, None, Ledger.PayPending, 0, None, None)
  const DupLedger: Ledger.Orders := Ledger.Orders(map[1 := DupRow], 2)

  /** Provider order 5, whose request names that row's token. */
  const DupOrder: ProviderOrder := ProviderOrder(Some(5), Some("N5"), Some(31),
    Some(NoRequest.(slotId := Some(3), unitId := Some(7), transientKey := Some("t"))),
    None, None, None, None, Some(9), Some(100), None)

  /** The first created event links the row to order 5. */
  lemma DupFirstEvent(c: Clock)
    ensures Ledger.IdsBelowNext(DupLedger)
    ensures OnOrderCreatedAsWritten(DupLedger, DupOrder, c) == Ledger.Orders(map[1 := Attach(DupRow, DupOrder)], 2)
  {
    assert TokenRows(DupLedger, DupOrder) == {1};
    assert Attach(DupRow, DupOrder) != DupRow;
  }

  /** The second one finds nothing to change and inserts. */
  lemma DupSecondEvent(c: Clock)
    ensures var l1 := Ledger.Orders(map[1 := Attach(DupRow, DupOrder)], 2);
      Ledger.IdsBelowNext(l1) &&
      OnOrderCreatedAsWritten(l1, DupOrder, c) == Ledger.Append(l1, NewPendingRow(DupOrder, c))
  {
    var l1 := Ledger.Orders(map[1 := Attach(DupRow, DupOrder)], 2);
    assert TokenRows(l1, DupOrder) == {1};
    assert LatestPickable(l1, 7, 3, 1) == Some(1);
  }

  /** The as-written callback gives one provider order two ledger rows
      when the created event arrives twice (it is hooked under two names):
      the second token UPDATE changes nothing, nor does the fallback
      UPDATE on the same row, so a row is inserted. The corrected callback
      leaves the ledger alone the second time. */
  lemma OrderCreatedAsWrittenDuplicates(c: Clock)
    ensures Ledger.IdsBelowNext(DupLedger) && Ledger.UniqueProviderIds(DupLedger) && Ledger.TokensUnique(DupLedger)
    ensures var l1 := OnOrderCreatedAsWritten(DupLedger, DupOrder, c);
      Ledger.IdsBelowNext(l1) &&
      var l2 := OnOrderCreatedAsWritten(l1, DupOrder, c);
      1 in l2.rows && 2 in l2.rows && Ledger.Carries(l2.rows[1], 5) && Ledger.Carries(l2.rows[2], 5) &&
      !Ledger.UniqueProviderIds(l2)
    ensures OnOrderCreated(OnOrderCreated(DupLedger, DupOrder, c), DupOrder, c) == OnOrderCreated(DupLedger, DupOrder, c)
  {
    DupFirstEvent(c);
    DupSecondEvent(c);
    var l1 := OnOrderCreatedAsWritten(DupLedger, DupOrder, c);
    var l2 := OnOrderCreatedAsWritten(l1, DupOrder, c);
    assert l2.rows[1] == Attach(DupRow, DupOrder) && l2.rows[2] == NewPendingRow(DupOrder, c);
    assert Ledger.Carries(l2.rows[1], 5) && Ledger.Carries(l2.rows[2], 5);
    OrderCreatedIdempotent(DupLedger, DupOrder, c, c);
  }

  // ---------------------------------------------------------------------
  // on_order_closed

  /** The refund the paid branch writes: every ledger row carrying the
      provider id (0 when unset) becomes refunded. */
  function Refund(l: Ledger.Orders, z: int, clock: Clock): (r: Ledger.Orders)
    ensures r.nextId == l.nextId && r.rows.Keys == l.rows.Keys
    ensures forall id | id in l.rows ::
      if l.rows[id].zid == Some(z)
      then r.rows[id] == l.rows[id].(status := Ledger.PayRefunded, closedAt := Some(clock.local))
      else r.rows[id] == l.rows[id]
  {
    Ledger.UpdateWhere(l, Ledger.RowsOf(l, z), row => Refunded(row, clock))
  }

  function Refunded(row: Ledger.OrderRow, clock: Clock): Ledger.OrderRow {
    row.(status := Ledger.PayRefunded, closedAt := Some(clock.local))
  }

  /** The request's temporary order data is deleted when it names a key. */
  function DropTransient(transients: map<string, Ajax.OrderData>, req: AdRequest): map<string, Ajax.OrderData> {
    if req.transientKey.Some? then transients - {req.transientKey.value} else transients
  }

  /** `on_order_closed` as written: a pending unit is released, and a paid
      unit is released and its ledger rows refunded, whichever order the
      unit was sold to. */
  function OnOrderClosedAsWritten(s: Store, o: ProviderOrder, clock: Clock): (r: Store)
    requires Ledger.IdsBelowNext(s.orders)
    ensures Ledger.IdsBelowNext(r.orders)
    ensures !IsAdOrder(o) || RequestOf(o).None? ==> r == s
  {
    if !IsAdOrder(o) then s
    else match RequestOf(o)
      case None => s
      case Some(req) =>
        var id := req.unitId.GetOr(0);
        if id == 0 || id !in s.units.rows then s
        else
          var tr := DropTransient(s.transients, req);
          var u := s.units.rows[id];
          if u.status == Units.Pending then Store(Units.SetAvailable(s.units, id, true, clock), s.orders, tr)
          else if u.status == Units.Paid then
            Store(Units.SetAvailable(s.units, id, true, clock), Refund(s.orders, Zid(o), clock), tr)
          else Store(s.units, s.orders, tr)
  }

  /** The paid unit a closed order may release: the one sold to it. */
  predicate SoldTo(u: Units.Unit, o: ProviderOrder) {
    u.status == Units.Paid && Zid(o) > 0 && u.orderId == Some(Zid(o))
  }

  /** `on_order_closed` with the paid branch taken only for the unit the
      closed order bought. */
  function OnOrderClosed(s: Store, o: ProviderOrder, clock: Clock): (r: Store)
    requires Ledger.IdsBelowNext(s.orders)
    ensures Ledger.IdsBelowNext(r.orders)
    ensures !IsAdOrder(o) || RequestOf(o).None? ==> r == s
  {
    if !IsAdOrder(o) then s
    else match RequestOf(o)
      case None => s
      case Some(req) =>
        var id := req.unitId.GetOr(0);
        if id == 0 || id !in s.units.rows then s
        else
          var tr := DropTransient(s.transients, req);
          var u := s.units.rows[id];
          if u.status == Units.Pending then Store(Units.SetAvailable(s.units, id, true, clock), s.orders, tr)
          else if SoldTo(u, o) then
            Store(Units.SetAvailable(s.units, id, true, clock), Refund(s.orders, Zid(o), clock), tr)
          else Store(s.units, s.orders, tr)
  }

  /** What the corrected callback does: only the named unit changes, a
      paid unit is released only when it was sold to the closed order
      (and then its rows are refunded), and the store stays valid. */
  lemma OrderClosedReleasesOnlyOwnUnit(s: Store, o: ProviderOrder, clock: Clock)
    requires Valid(s)
    ensures var r := OnOrderClosed(s, o, clock);
      Valid(r) && r.units.rows.Keys == s.units.rows.Keys &&
      (forall j | j in s.units.rows && r.units.rows[j] != s.units.rows[j] ::
         IsAdOrder(o) && RequestOf(o).Some? && j == RequestOf(o).value.unitId.GetOr(0) &&
         r.units.rows[j] == Units.Cleared(s.units.rows[j], clock) &&
         (s.units.rows[j].status == Units.Pending || SoldTo(s.units.rows[j], o))) &&
      (forall j | j in s.units.rows && s.units.rows[j].status == Units.Paid && !SoldTo(s.units.rows[j], o) ::
         r.units.rows[j] == s.units.rows[j]) &&
      (r.orders != s.orders ==> r.orders == Refund(s.orders, Zid(o), clock))
  {
    var r := OnOrderClosed(s, o, clock);
    if IsAdOrder(o) && RequestOf(o).Some? {
      var id := RequestOf(o).value.unitId.GetOr(0);
      if id != 0 && id in s.units.rows {
        Units.TransitionsKeepValid(s.units, id, Units.AdData(map[], None, None, None, None), 0, true, 0, 0, 0, clock);
        Ledger.UpdateKeepingIdsKeepsUnique(s.orders, Ledger.RowsOf(s.orders, Zid(o)),
                                           row => Refunded(row, clock));
      }
    }
  }

  /** The as-written callback releases a paid unit sold to another order
      when a closed order's request names it (a stale or forged request,
      or a refund of an order whose unit was later resold); the corrected
      callback leaves that unit sold. */
  lemma OrderClosedAsWrittenReleasesOthersUnit(s: Store, o: ProviderOrder, clock: Clock)
    requires Ledger.IdsBelowNext(s.orders) && IsAdOrder(o) && RequestOf(o).Some?
    requires var id := RequestOf(o).value.unitId.GetOr(0);
      id != 0 && id in s.units.rows && s.units.rows[id].status == Units.Paid && s.units.rows[id].orderId != Some(Zid(o))
    ensures var id := RequestOf(o).value.unitId.GetOr(0);
      OnOrderClosedAsWritten(s, o, clock).units.rows[id].status == Units.Available &&
      OnOrderClosed(s, o, clock).units.rows[id] == s.units.rows[id]
  {
  }
}
