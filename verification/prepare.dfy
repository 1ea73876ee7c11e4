/** `prepare_order` of the purchase handler: the checks in order, the
    locked reservation of the unit, and what follows its commit -- the
    order token, the signed order data stored under it and the pending
    ledger row. The request and its validators are those of `Ajax`, the
    reservation that of `Reservation`. */
module Prepare {
  import opened Common
  import opened Ajax
  import opened Checks
  import opened Reservation
  import Units
  import Ledger
  import Config
  import Pricing
  import Helpers

  /** The `ad_data` sub-array of the order data: the name trimmed, the
      text trimmed only for a text slot, and no customer name. */
  function AdValue(req: Request, image: bool, f: Units.ContentField): Option<Val> {
    match f
    case CustomerName => None
    case WebsiteName => Some(Str(Trim(req.websiteName)))
    case WebsiteUrl => Some(Str(req.websiteUrl))
    case ContactType => Some(Str(req.contactType))
    case ContactValue => Some(Str(req.contactValue))
    case TargetUrl => Some(Str(req.targetUrl))
    case ImageId => Some(Num(req.imageId))
    case ImageUrl => Some(Str(req.imageUrl))
    case TextContent => Some(Str(if image then req.textContent else Trim(req.textContent)))
    case ColorKey => Some(Str(req.colorKey))
  }

  function AdDataOf(req: Request, image: bool): (m: map<Units.ContentField, Val>)
    ensures forall f :: f in m <==> AdValue(req, image, f).Some?
    ensures forall f | f in m :: Some(m[f]) == AdValue(req, image, f)
    ensures Units.CustomerName !in m
  {
    map f | f in Units.AllFields && AdValue(req, image, f).Some? :: AdValue(req, image, f).value
  }

  /** One entry of the order data stored under the token, before
      signing; the `expires_at` date string is kept as the timestamp it
      formats. */
  function DataValue(req: Request, slot: Config.Slot, unitId: int, q: Pricing.Quote, pe: int,
                     env: Env, clock: Clock, k: DataKey): Option<Entry>
  {
    match k
    case SlotId => Some(Scalar(Num(req.slotId)))
    case SlotTitle => Some(Scalar(Str(slot.title.GetOr(""))))
    case UnitId => Some(Scalar(Num(unitId)))
    case UnitKey => Some(Scalar(Num(req.unitKey)))
    case PlanType => Some(Scalar(Str(req.planType)))
    case DurationMonths => Some(Scalar(Num(req.months)))
    case BasePrice => Some(Scalar(Num(q.base)))
    case ColorPrice => Some(Scalar(Num(q.color)))
    case TotalPrice => Some(Scalar(Num(q.total)))
    case AdData => Some(Fields(AdDataOf(req, Config.IsImageSlot(slot))))
    case UserId => Some(Scalar(Num(req.userId)))
    case CreatedAt => Some(Scalar(Num(clock.local)))
    case CreatedTimestamp => Some(Scalar(Num(clock.unix)))
    case ExpiresAt => Some(Scalar(Num(pe)))
    case RequestId => Some(Scalar(Str(env.requestId)))
    case Signature => None
  }

  /** The order data before signing: every key but the signature. */
  function OrderDataOf(req: Request, slot: Config.Slot, unitId: int, q: Pricing.Quote, pe: int,
                       env: Env, clock: Clock): (d: OrderData)
    ensures d.Keys == AllDataKeys - {Signature}
    ensures forall k | k in d :: Some(d[k]) == DataValue(req, slot, unitId, q, pe, env, clock, k)
  {
    map k | k in AllDataKeys && DataValue(req, slot, unitId, q, pe, env, clock, k).Some? ::
      DataValue(req, slot, unitId, q, pe, env, clock, k).value
  }

  /** The order token: unit id, Unix time and eight random characters. */
  function OrderToken(unitId: int, now: int, suffix: string): (s: string)
    ensures "zibll_ad_order_" <= s
  {
    "zibll_ad_order_" + IntToString(unitId) + "_" + IntToString(now) + "_" + suffix
  }

  /** The pending ledger row recorded after the commit: the buyer's
      contact fields and ad data in the snapshot, the attempt token, no
      provider order yet. */
  function PendingRow(req: Request, unitId: int, q: Pricing.Quote, token: string, ad: map<Units.ContentField, Val>,
                      clock: Clock): (row: Ledger.OrderRow)
    ensures row.status == Ledger.PayPending && row.zid.None? && row.attemptToken == Some(token)
    ensures row.unitId == unitId && row.slotId == req.slotId && row.totalPrice == q.total
  {
    var name := Str(Trim(req.websiteName));
    Ledger.OrderRow(
      unitId, req.slotId, None, None, None, req.userId,
      Ledger.Snapshot(map[Units.CustomerName := name, Units.ContactType := Str(req.contactType),
                          Units.ContactValue := Str(req.contactValue), Units.WebsiteName := name,
                          Units.WebsiteUrl := Str(req.websiteUrl)],
                      Some(ad)),
      Some(token), req.planType, req.months, q.base, q.color, q.total, None,
      Ledger.PayPending, clock.local, None, None)
  }

  /** What a successful `prepare_order` leaves behind. */
  datatype Prepared = Prepared(
    units: Units.Table,
    orders: Ledger.Orders,
    transients: map<string, OrderData>,
    unitId: int,
    token: string,
    quote: Pricing.Quote,
    expiresAt: int)

  /** The checks before the transaction, in order: nonce, guest purchase,
      the purchase pause, the request parameters, the slot, the content. */
  function PreCheck(slots: map<int, Config.Slot>, options: map<string, PVal>, req: Request, env: Env): (e: Option<PrepareError>)
    ensures e.None? <==>
      req.nonceOk && (GuestAllowed(options) || req.loggedIn) && !Paused(options) && ParamsValid(req) &&
      req.slotId in slots && Config.Enabled(slots[req.slotId]) &&
      ContentAcceptable(req, slots[req.slotId], env)
    ensures !req.nonceOk ==> e == Some(NonceFailed)
    ensures req.nonceOk && !GuestAllowed(options) && !req.loggedIn ==> e == Some(LoginRequired)
    ensures req.nonceOk && (GuestAllowed(options) || req.loggedIn) && !Paused(options) && !ParamsValid(req) ==>
      e == Some(InvalidParams(ParamErrors(req)))
  {
    if !req.nonceOk then Some(NonceFailed)
    else if !GuestAllowed(options) && !req.loggedIn then Some(LoginRequired)
    else if Paused(options) then Some(PurchasePaused)
    else if ParamErrors(req) != [] then Some(InvalidParams(ParamErrors(req)))
    else if req.slotId !in slots then Some(SlotNotFound)
    else if !Config.Enabled(slots[req.slotId]) then Some(SlotDisabled)
    else if DataErrors(req, slots[req.slotId], env) != [] then Some(InvalidData(DataErrors(req, slots[req.slotId], env)))
    else None
  }

  /** What follows the commit: the order token, the signed order data
      stored under it, and the pending ledger row that records the
      attempt. `t1`, `id` and `q` are the outcome of the transaction. */
  function Commit(t1: Units.Table, l: Ledger.Orders, transients: map<string, OrderData>, slot: Config.Slot,
                  req: Request, id: int, q: Pricing.Quote, env: Env, clock: Clock): (p: Prepared)
    requires Ledger.IdsBelowNext(l)
    ensures p.units == t1 && p.unitId == id && p.quote == q
    ensures p.expiresAt == clock.unix + Helpers.OrderTimeout(env.themeTimeout) * 60
    ensures p.token == OrderToken(id, clock.unix, env.randomSuffix)
    ensures p.transients == transients[p.token := Sign(OrderDataOf(req, slot, id, q, p.expiresAt, env, clock), env.sign)]
    ensures p.orders == Ledger.Append(l, PendingRow(req, id, q, p.token, AdDataOf(req, Config.IsImageSlot(slot)), clock))
  {
    var pe := clock.unix + Helpers.OrderTimeout(env.themeTimeout) * 60;
    var token := OrderToken(id, clock.unix, env.randomSuffix);
    var data := Sign(OrderDataOf(req, slot, id, q, pe, env, clock), env.sign);
    Prepared(t1, Ledger.Append(l, PendingRow(req, id, q, token, AdDataOf(req, Config.IsImageSlot(slot)), clock)),
             transients[token := data], id, token, q, pe)
  }

  /** The pending row adds no second row for any provider order. */
  lemma CommitKeepsLedger(t1: Units.Table, l: Ledger.Orders, transients: map<string, OrderData>, slot: Config.Slot,
                          req: Request, id: int, q: Pricing.Quote, env: Env, clock: Clock)
    requires Ledger.IdsBelowNext(l) && Ledger.UniqueProviderIds(l)
    ensures var l1 := Commit(t1, l, transients, slot, req, id, q, env, clock).orders;
      Ledger.IdsBelowNext(l1) && Ledger.UniqueProviderIds(l1) && l1.rows.Keys == l.rows.Keys + {l.nextId}
  {
    var l1 := Commit(t1, l, transients, slot, req, id, q, env, clock).orders;
    forall a, b, z | a in l1.rows && b in l1.rows && a != b && Ledger.Carries(l1.rows[a], z)
      ensures !Ledger.Carries(l1.rows[b], z)
    {
      assert a != l.nextId;
      if b != l.nextId {
        assert Ledger.Carries(l.rows[a], z);
      }
    }
  }

  /** The token stored for the buyer verifies, and its data names the
      unit that was locked and the price that was charged. */
  lemma CommitStoresVerifiedOrder(t1: Units.Table, l: Ledger.Orders, transients: map<string, OrderData>,
                                  slot: Config.Slot, req: Request, id: int, q: Pricing.Quote, env: Env, clock: Clock)
    requires Ledger.IdsBelowNext(l)
    ensures var p := Commit(t1, l, transients, slot, req, id, q, env, clock);
      p.token in p.transients && VerifySignature(p.transients[p.token], env.sign) &&
      p.transients[p.token][UnitId] == Scalar(Num(id)) &&
      p.transients[p.token][TotalPrice] == Scalar(Num(q.total)) &&
      p.transients[p.token][SlotId] == Scalar(Num(req.slotId)) &&
      p.transients[p.token][UnitKey] == Scalar(Num(req.unitKey))
  {
    var p := Commit(t1, l, transients, slot, req, id, q, env, clock);
    var d := OrderDataOf(req, slot, id, q, p.expiresAt, env, clock);
    SignatureRoundTrip(d, env.sign);
    OrderDataNamesPurchase(req, slot, id, q, p.expiresAt, env, clock);
    var signed := Sign(d, env.sign);
    assert p.transients[p.token] == signed;
    assert signed[UnitId] == d[UnitId] && signed[TotalPrice] == d[TotalPrice];
    assert signed[SlotId] == d[SlotId] && signed[UnitKey] == d[UnitKey];
  }

  /** The unsigned order data names the slot, the position, the unit and
      the total charged. */
  lemma OrderDataNamesPurchase(req: Request, slot: Config.Slot, id: int, q: Pricing.Quote, pe: int,
                               env: Env, clock: Clock)
    ensures var d := OrderDataOf(req, slot, id, q, pe, env, clock);
      d[UnitId] == Scalar(Num(id)) && d[TotalPrice] == Scalar(Num(q.total)) &&
      d[SlotId] == Scalar(Num(req.slotId)) && d[UnitKey] == Scalar(Num(req.unitKey))
  {
    var d := OrderDataOf(req, slot, id, q, pe, env, clock);
    assert Some(d[UnitId]) == DataValue(req, slot, id, q, pe, env, clock, UnitId);
    assert Some(d[TotalPrice]) == DataValue(req, slot, id, q, pe, env, clock, TotalPrice);
    assert Some(d[SlotId]) == DataValue(req, slot, id, q, pe, env, clock, SlotId);
    assert Some(d[UnitKey]) == DataValue(req, slot, id, q, pe, env, clock, UnitKey);
  }

  /** `prepare_order` as one atomic step over the unit table, the ledger
      and the transient store: the checks, then the transaction, then the
      commit. */
  function PrepareOrder(t: Units.Table, l: Ledger.Orders, transients: map<string, OrderData>,
                        slots: map<int, Config.Slot>, options: map<string, PVal>,
                        req: Request, env: Env, clock: Clock): (r: Result<Prepared, PrepareError>)
    requires Units.IdsBelowNext(t) && Ledger.IdsBelowNext(l)
    ensures PreCheck(slots, options, req, env).Some? ==> r == Err(PreCheck(slots, options, req, env).value)
    ensures PreCheck(slots, options, req, env).None? ==>
      var slot := slots[req.slotId];
      var res := Reserve(t, slot, req, LockContent(req, Config.IsImageSlot(slot)), Helpers.OrderTimeout(env.themeTimeout), clock);
      (res.Err? ==> r == Err(res.error)) &&
      (res.Ok? ==> r == Ok(Commit(res.value.0, l, transients, slot, req, res.value.1, res.value.2, env, clock)))
  {
    var e := PreCheck(slots, options, req, env);
    if e.Some? then Err(e.value)
    else
      var slot := slots[req.slotId];
      var res := Reserve(t, slot, req, LockContent(req, Config.IsImageSlot(slot)), Helpers.OrderTimeout(env.themeTimeout), clock);
      if res.Err? then Err(res.error)
      else Ok(Commit(res.value.0, l, transients, slot, req, res.value.1, res.value.2, env, clock))
  }

  /** A request refused by the first checks is refused whatever the unit
      table holds: nothing is read or written. */
  lemma ParamRefusalIgnoresUnits(t: Units.Table, t2: Units.Table, l: Ledger.Orders,
                                 transients: map<string, OrderData>, slots: map<int, Config.Slot>,
                                 options: map<string, PVal>, req: Request, env: Env, clock: Clock)
    requires Units.IdsBelowNext(t) && Units.IdsBelowNext(t2) && Ledger.IdsBelowNext(l)
    requires req.nonceOk && (GuestAllowed(options) || req.loggedIn) && !Paused(options) && !ParamsValid(req)
    ensures PrepareOrder(t, l, transients, slots, options, req, env, clock) == Err(InvalidParams(ParamErrors(req)))
    ensures PrepareOrder(t, l, transients, slots, options, req, env, clock) ==
            PrepareOrder(t2, l, transients, slots, options, req, env, clock)
  {
  }

  /** A successful reservation keeps the unit table valid (so at most one
      row per position is pending or paid) and adds one ledger row that
      carries no provider order, so provider ids stay unique. */
  lemma PrepareKeepsInvariants(t: Units.Table, l: Ledger.Orders, transients: map<string, OrderData>,
                               slots: map<int, Config.Slot>, options: map<string, PVal>,
                               req: Request, env: Env, clock: Clock)
    requires Units.Valid(t) && Ledger.IdsBelowNext(l) && Ledger.UniqueProviderIds(l)
    ensures PrepareOrder(t, l, transients, slots, options, req, env, clock).Ok? ==>
      var p := PrepareOrder(t, l, transients, slots, options, req, env, clock).value;
      Units.Valid(p.units) && Units.AtMostOneOccupied(p.units) &&
      Ledger.IdsBelowNext(p.orders) && Ledger.UniqueProviderIds(p.orders) &&
      p.orders.rows.Keys == l.rows.Keys + {l.nextId}
  {
    var r := PrepareOrder(t, l, transients, slots, options, req, env, clock);
    if r.Ok? {
      var slot := slots[req.slotId];
      var content := LockContent(req, Config.IsImageSlot(slot));
      var timeout := Helpers.OrderTimeout(env.themeTimeout);
      var res := Reserve(t, slot, req, content, timeout, clock);
      ReserveKeepsValid(t, slot, req, content, timeout, clock);
      CommitKeepsLedger(res.value.0, l, transients, slot, req, res.value.1, res.value.2, env, clock);
    }
  }

  /** All checks up to the transaction passed and the price is positive. */
  predicate Admissible(slots: map<int, Config.Slot>, options: map<string, PVal>, req: Request, env: Env) {
    PreCheck(slots, options, req, env).None? &&
    var q := Pricing.CalculatePrice(slots[req.slotId], req.planType, req.months, req.colorKey, req.unitKey);
    q.Ok? && q.value.total > 0
  }

  /** The transaction succeeds whenever the position is free: no row, or
      a row that is neither sold for a running term nor locked until later. */
  lemma ReserveSucceedsWhenFree(t: Units.Table, slot: Config.Slot, req: Request,
                                content: map<Units.ContentField, Val>, timeout: int, clock: Clock)
    requires Units.IdsBelowNext(t)
    requires var q := Pricing.CalculatePrice(slot, req.planType, req.months, req.colorKey, req.unitKey);
      q.Ok? && q.value.total > 0
    requires Units.Find(t, req.slotId, req.unitKey).Some? ==>
      LockRefusal(t.rows[Units.Find(t, req.slotId, req.unitKey).value], clock.unix).None?
    ensures Reserve(t, slot, req, content, timeout, clock).Ok?
  {
  }

  /** A paid unit that is re-locked loses its link to the old order. */
  lemma ReserveClearsLapsedOrder(t: Units.Table, slot: Config.Slot, req: Request,
                                 content: map<Units.ContentField, Val>, timeout: int, clock: Clock)
    requires Units.IdsBelowNext(t)
    requires Units.Find(t, req.slotId, req.unitKey).Some?
    requires t.rows[Units.Find(t, req.slotId, req.unitKey).value].status == Units.Paid
    ensures var r := Reserve(t, slot, req, content, timeout, clock);
      r.Ok? ==> r.value.0.rows[r.value.1].orderId.None? && r.value.0.rows[r.value.1].orderNum.None?
  {
  }

  /** Once the checks pass and the transaction succeeds, `prepare_order`
      commits exactly what the transaction produced. */
  lemma PrepareCommits(t: Units.Table, l: Ledger.Orders, transients: map<string, OrderData>,
                       slots: map<int, Config.Slot>, options: map<string, PVal>,
                       req: Request, env: Env, clock: Clock)
    requires Units.IdsBelowNext(t) && Ledger.IdsBelowNext(l)
    ensures PreCheck(slots, options, req, env).None? ==>
      var res := Reserve(t, slots[req.slotId], req, LockContent(req, Config.IsImageSlot(slots[req.slotId])),
                         Helpers.OrderTimeout(env.themeTimeout), clock);
      res.Ok? ==>
        PrepareOrder(t, l, transients, slots, options, req, env, clock) ==
          Ok(Commit(res.value.0, l, transients, slots[req.slotId], req, res.value.1, res.value.2, env, clock))
        && res.value.1 in res.value.0.rows && res.value.0.rows[res.value.1].status == Units.Pending
  {
  }

  /** A successful `prepare_order` that locked the unit `id` as pending. */
  predicate LockedFor(r: Result<Prepared, PrepareError>, id: int) {
    r.Ok? && r.value.unitId == id && id in r.value.units.rows && r.value.units.rows[id].status == Units.Pending
  }

  /** Lazy expiry: a paid unit whose term is over is not refused; the same
      call locks it as pending, with its old order link gone. */
  lemma LapsedPaidUnitIsRelocked(t: Units.Table, l: Ledger.Orders, transients: map<string, OrderData>,
                                 slots: map<int, Config.Slot>, options: map<string, PVal>,
                                 req: Request, env: Env, clock: Clock)
    requires Units.IdsBelowNext(t) && Ledger.IdsBelowNext(l)
    requires Units.Find(t, req.slotId, req.unitKey).Some?
    requires t.rows[Units.Find(t, req.slotId, req.unitKey).value].status == Units.Paid
    requires t.rows[Units.Find(t, req.slotId, req.unitKey).value].endsAt.GetOr(0) <= clock.unix
    ensures Admissible(slots, options, req, env) ==>
      var r := PrepareOrder(t, l, transients, slots, options, req, env, clock);
      LockedFor(r, Units.Find(t, req.slotId, req.unitKey).value) &&
      r.value.units.rows[r.value.unitId].orderId.None? && r.value.units.rows[r.value.unitId].orderNum.None?
  {
    if Admissible(slots, options, req, env) {
      var slot := slots[req.slotId];
      var content := LockContent(req, Config.IsImageSlot(slot));
      var timeout := Helpers.OrderTimeout(env.themeTimeout);
      ReserveSucceedsWhenFree(t, slot, req, content, timeout, clock);
      ReserveClearsLapsedOrder(t, slot, req, content, timeout, clock);
      PrepareCommits(t, l, transients, slots, options, req, env, clock);
    }
  }

  /** A unit whose reservation lapses exactly now: `prepare_order`
      re-locks it (a deadline not after now is over), while `set_pending`
      refuses it (it needs the deadline strictly before now). An expired
      unit is likewise accepted here and refused by `set_pending`. */
  lemma ReserveAcceptsWhatSetPendingRefuses(t: Units.Table, l: Ledger.Orders, transients: map<string, OrderData>,
                                            slots: map<int, Config.Slot>, options: map<string, PVal>,
                                            req: Request, env: Env, clock: Clock)
    requires Units.IdsBelowNext(t) && Ledger.IdsBelowNext(l)
    requires Units.Find(t, req.slotId, req.unitKey).Some?
    requires var u := t.rows[Units.Find(t, req.slotId, req.unitKey).value];
      u.status == Units.Expired || (u.status == Units.Pending && u.pendingExpiresAt == Some(clock.unix))
    ensures Admissible(slots, options, req, env) ==>
      LockedFor(PrepareOrder(t, l, transients, slots, options, req, env, clock),
                Units.Find(t, req.slotId, req.unitKey).value)
    ensures Units.SetPending(t, req.slotId, req.unitKey, Helpers.OrderTimeout(env.themeTimeout), clock).None?
  {
    if Admissible(slots, options, req, env) {
      var slot := slots[req.slotId];
      ReserveSucceedsWhenFree(t, slot, req, LockContent(req, Config.IsImageSlot(slot)),
                              Helpers.OrderTimeout(env.themeTimeout), clock);
      PrepareCommits(t, l, transients, slots, options, req, env, clock);
    }
    SetPendingRefusesLapsedNow(t, req.slotId, req.unitKey, Helpers.OrderTimeout(env.themeTimeout), clock);
  }

  /** `set_pending` refuses an expired row and a pending row whose
      deadline is exactly now. */
  lemma SetPendingRefusesLapsedNow(t: Units.Table, slot: int, key: int, minutes: int, clock: Clock)
    requires Units.Find(t, slot, key).Some?
    requires var u := t.rows[Units.Find(t, slot, key).value];
      u.status == Units.Expired || (u.status == Units.Pending && u.pendingExpiresAt == Some(clock.unix))
    ensures Units.SetPending(t, slot, key, minutes, clock).None?
  {
    assert !Units.Relockable(t.rows[Units.Find(t, slot, key).value], clock.unix);
  }

  /** A position with no row at all is not refused: `prepare_order`
      inserts a fresh pending row there with no term and no order. */
  lemma MissingUnitIsInserted(t: Units.Table, l: Ledger.Orders, transients: map<string, OrderData>,
                              slots: map<int, Config.Slot>, options: map<string, PVal>,
                              req: Request, env: Env, clock: Clock)
    requires Units.IdsBelowNext(t) && Ledger.IdsBelowNext(l)
    requires Units.Find(t, req.slotId, req.unitKey).None?
    ensures t.nextId !in t.rows
    ensures Admissible(slots, options, req, env) ==>
      var r := PrepareOrder(t, l, transients, slots, options, req, env, clock);
      LockedFor(r, t.nextId) &&
      r.value.units.rows[t.nextId].endsAt.None? && r.value.units.rows[t.nextId].orderId.None?
  {
    if Admissible(slots, options, req, env) {
      var slot := slots[req.slotId];
      ReserveSucceedsWhenFree(t, slot, req, LockContent(req, Config.IsImageSlot(slot)),
                              Helpers.OrderTimeout(env.themeTimeout), clock);
      PrepareCommits(t, l, transients, slots, options, req, env, clock);
    }
  }
}
