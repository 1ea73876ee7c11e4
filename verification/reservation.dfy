/** The locked read-check-write of `prepare_order`: the state check
    under the row lock, the lazy expiry of a lapsed paid unit, and the
    reservation itself -- the unit re-locked in place, or a new pending
    row for a position that has none. */
module Reservation {
  import opened Common
  import opened Ajax
  import opened Checks
  import Units
  import Config
  import Pricing

  /** `ceil(w / 60)` for a positive number of seconds. */
  function WaitMinutes(w: int): (m: int)
    requires w > 0
    ensures m >= 1 && (m - 1) * 60 < w <= m * 60
  {
    (w + 59) / 60
  }

  /** The refusal of the state check under the row lock, if any: a paid
      unit whose end time (0 when unset) is still ahead is occupied; a
      pending unit whose deadline (0 when unset) is still ahead is locked.
      A paid unit whose term is over is let through (it is expired first). */
  function LockRefusal(u: Units.Unit, now: int): (e: Option<PrepareError>)
    ensures e.Some? ==> e.value.Occupied? || e.value.Locked?
    ensures u.status == Units.Paid ==>
      (e.Some? <==> u.endsAt.GetOr(0) > now) && (e.Some? ==> e.value == Occupied(u.endsAt.GetOr(0)))
    ensures u.status == Units.Pending ==>
      (e.Some? <==> u.pendingExpiresAt.GetOr(0) > now) &&
      (e.Some? ==>
         (e.value.Locked? &&
          (e.value.waitMinutes - 1) * 60 < u.pendingExpiresAt.GetOr(0) - now <= e.value.waitMinutes * 60))
    ensures u.status == Units.Available || u.status == Units.Expired ==> e.None?
  {
    if u.status == Units.Paid then
      (if u.endsAt.GetOr(0) > now then Some(Occupied(u.endsAt.GetOr(0))) else None)
    else if u.status == Units.Pending then
      var pe := u.pendingExpiresAt.GetOr(0);
      if pe > now then Some(Locked(WaitMinutes(pe - now))) else None
    else None
  }

  /** The lazy expiry of a paid unit whose term is over: it becomes
      expired and loses its order link and lock deadline. */
  function LazyExpired(u: Units.Unit, clock: Clock): (v: Units.Unit)
    ensures u.status != Units.Paid ==> v == u
    ensures u.status == Units.Paid ==>
      v.status == Units.Expired && v.orderId.None? && v.orderNum.None? && v.pendingExpiresAt.None? &&
      v.(status := u.status, orderId := u.orderId, orderNum := u.orderNum,
         pendingExpiresAt := u.pendingExpiresAt, updatedAt := u.updatedAt) == u
  {
    if u.status == Units.Paid then
      u.(status := Units.Expired, orderId := None, orderNum := None, pendingExpiresAt := None,
         updatedAt := clock.local)
    else u
  }

  /** One content column as the lock writes it; `None` is NULL. Every
      one of the ten columns is written: an image slot nulls the text and
      colour, a text slot zeroes the image id and nulls the image URL. */
  function LockValue(req: Request, image: bool, f: Units.ContentField): Option<Val> {
    match f
    case CustomerName => Some(Str(Trim(req.websiteName)))
    case WebsiteName => Some(Str(Trim(req.websiteName)))
    case WebsiteUrl => Some(Str(req.websiteUrl))
    case ContactType => Some(Str(req.contactType))
    case ContactValue => Some(Str(req.contactValue))
    case TargetUrl => Some(Str(req.targetUrl))
    case ImageId => Some(Num(if image then req.imageId else 0))
    case ImageUrl => if image then Some(Str(req.imageUrl)) else None
    case TextContent => if image then None else Some(Str(Trim(req.textContent)))
    case ColorKey => if image then None else Some(Str(req.colorKey))
  }

  /** The content columns the lock writes, all ten at once, so nothing of
      an earlier buyer's content survives. */
  function LockContent(req: Request, image: bool): (c: map<Units.ContentField, Val>)
    ensures forall f :: f in c <==> LockValue(req, image, f).Some?
    ensures forall f | f in c :: Some(c[f]) == LockValue(req, image, f)
  {
    map f | f in Units.AllFields && LockValue(req, image, f).Some? :: LockValue(req, image, f).value
  }

  /** A unit row locked for the buyer: pending until `pe`, priced at the
      quote's total for `months`. */
  function LockedUnit(u: Units.Unit, content: map<Units.ContentField, Val>, total: int, months: int,
                      pe: int, clock: Clock): (v: Units.Unit)
    ensures Units.SameCell(u, v) && v.status == Units.Pending && v.pendingExpiresAt == Some(pe)
    ensures v.content == content && v.price == total && v.durationMonths == months
    ensures v.orderId == u.orderId && v.orderNum == u.orderNum && v.startsAt == u.startsAt && v.endsAt == u.endsAt
  {
    u.(status := Units.Pending, content := content, price := total, durationMonths := months,
       pendingExpiresAt := Some(pe), updatedAt := clock.local)
  }

  /** The transaction of `prepare_order`: read the unit at the position,
      refuse when it is occupied or locked, expire a lapsed paid unit,
      price the purchase, and lock the unit (inserting a row when the
      position has none). Any refusal rolls back, so an error carries no
      table. The result is the new table, the unit id and the quote. */
  function Reserve(t: Units.Table, slot: Config.Slot, req: Request, content: map<Units.ContentField, Val>,
                   timeout: int, clock: Clock): (r: Result<(Units.Table, int, Pricing.Quote), PrepareError>)
    requires Units.IdsBelowNext(t)
    ensures Units.Find(t, req.slotId, req.unitKey).Some? ==>
      var u := t.rows[Units.Find(t, req.slotId, req.unitKey).value];
      LockRefusal(u, clock.unix).Some? ==> r == Err(LockRefusal(u, clock.unix).value)
    ensures r.Err? ==> r.error.Occupied? || r.error.Locked? || r.error == PriceInvalid
    ensures r.Ok? ==>
      var (t1, id, q) := r.value;
      Pricing.CalculatePrice(slot, req.planType, req.months, req.colorKey, req.unitKey) == Ok(q) && q.total > 0 &&
      id in t1.rows && t1.rows[id].slotId == req.slotId && t1.rows[id].key == req.unitKey &&
      t1.rows[id].status == Units.Pending && t1.rows[id].pendingExpiresAt == Some(clock.unix + timeout * 60) &&
      t1.rows[id].content == content && t1.rows[id].price == q.total && t1.rows[id].durationMonths == req.months &&
      t1.rows.Keys == t.rows.Keys + {id} &&
      (forall j | j in t.rows && j != id :: t1.rows[j] == t.rows[j])
    ensures r.Ok? && Units.Find(t, req.slotId, req.unitKey).Some? ==>
      r.value.1 == Units.Find(t, req.slotId, req.unitKey).value && r.value.0.nextId == t.nextId
    ensures r.Ok? && Units.Find(t, req.slotId, req.unitKey).None? ==>
      r.value.1 == t.nextId && r.value.0.nextId == t.nextId + 1 &&
      r.value.0.rows[r.value.1].startsAt.None? && r.value.0.rows[r.value.1].endsAt.None? &&
      r.value.0.rows[r.value.1].orderId.None?
  {
    var found := Units.Find(t, req.slotId, req.unitKey);
    var refusal := if found.Some? then LockRefusal(t.rows[found.value], clock.unix) else None;
    if refusal.Some? then Err(refusal.value)
    else match Pricing.CalculatePrice(slot, req.planType, req.months, req.colorKey, req.unitKey)
      case Err(_) => Err(PriceInvalid)
      case Ok(q) =>
        if q.total <= 0 then Err(PriceInvalid)
        else
          var pe := clock.unix + timeout * 60;
          if found.Some? then
            var id := found.value;
            var u := LockedUnit(LazyExpired(t.rows[id], clock), content, q.total, req.months, pe, clock);
            Ok((Units.Put(t, id, u), id, q))
          else
            var newRow := Units.Unit(req.slotId, req.unitKey, Units.Pending, content, None, None, q.total,
                                    req.months, None, None, Some(pe), clock.local);
            var ins := Units.Insert(t, newRow);
            Ok((ins.0, ins.1, q))
  }

  /** The reservation keeps the unit table valid: the locked row keeps its
      position, and a row is inserted only where the position had none. */
  lemma ReserveKeepsValid(t: Units.Table, slot: Config.Slot, req: Request, content: map<Units.ContentField, Val>,
                          timeout: int, clock: Clock)
    requires Units.Valid(t)
    ensures Reserve(t, slot, req, content, timeout, clock).Ok? ==>
      Units.Valid(Reserve(t, slot, req, content, timeout, clock).value.0) &&
      Units.AtMostOneOccupied(Reserve(t, slot, req, content, timeout, clock).value.0)
  {
    var r := Reserve(t, slot, req, content, timeout, clock);
    if r.Ok? {
      var (t1, id, q) := r.value;
      var found := Units.Find(t, req.slotId, req.unitKey);
      if found.Some? {
        assert forall j | j in t1.rows :: Units.SameCell(t1.rows[j], t.rows[j]);
      } else {
        assert forall j | j in t.rows :: !Units.SameCell(t.rows[j], t1.rows[id]);
      }
      assert Units.KeysUnique(t1);
      Units.UniqueKeysGiveOneOccupant(t1);
    }
  }
}
