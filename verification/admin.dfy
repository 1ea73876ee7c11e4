/** The admin REST endpoints that read or write the unit and order tables:
    the per-slot unit counts, the buyable-position listing, creating,
    editing and taking down an ad by hand, the display-layout check and the
    dashboard's parameter clamps. */
module Admin {
  import opened Common
  import opened Units
  import Ledger
  import Slots

  datatype AdminError =
    | InvalidParam | UnitNotFound | UnitUnavailable | CreateFailed
    | AdNotFound | NothingToUpdate | UpdateFailed | InvalidStatus | TakedownFailed

  /** `absint()` of a request parameter; an absent parameter reads as 0. */
  function AbsParam(v: PVal): nat {
    Absint(ToInt(v))
  }

  // ---------------------------------------------------------------- dashboard

  /** `get_dashboard`: the number of recent orders is clamped to 1..20 and
      the look-ahead for expiring ads to at least one day. */
  function DashboardParams(recent: PVal, expiring: PVal): (r: (int, int))
    ensures 1 <= r.0 <= 20 && 1 <= r.1
    ensures 1 <= AbsParam(recent) <= 20 ==> r.0 == AbsParam(recent)
    ensures AbsParam(recent) > 20 ==> r.0 == 20
    ensures AbsParam(expiring) >= 1 ==> r.1 == AbsParam(expiring)
    ensures AbsParam(recent) == 0 ==> r.0 == 1
    ensures AbsParam(expiring) == 0 ==> r.1 == 1
  {
    (Max(1, Min(20, AbsParam(recent))), Max(1, AbsParam(expiring)))
  }

  /** Clamping is a projection: values already clamped come back unchanged. */
  lemma DashboardParamsSettle(recent: PVal, expiring: PVal)
    ensures var r := DashboardParams(recent, expiring);
      DashboardParams(PInt(r.0), PInt(r.1)) == r
  {
  }

  // ---------------------------------------------------------------- unit counts

  /** The per-status counts `get_slot_units_stats` reports for a slot. */
  datatype Stats = Stats(available: int, pending: int, paid: int, expired: int, total: int)

  /** The ids of the slot's rows whose stored status is `s`. */
  function WithStatus(t: Table, slot: int, s: UnitStatus): (ids: set<int>)
    ensures forall id :: id in ids <==> id in t.rows && t.rows[id].slotId == slot && t.rows[id].status == s
  {
    set id | id in t.rows && t.rows[id].slotId == slot && t.rows[id].status == s
  }

  /** A row still stored as paid whose term has run out. */
  predicate LapsedPaid(u: Unit, now: int) {
    u.status == Paid && u.endsAt.Some? && u.endsAt.value > 0 && u.endsAt.value <= now
  }

  function LapsedPaidIds(t: Table, slot: int, now: int): (ids: set<int>)
    ensures forall id :: id in ids <==> id in t.rows && t.rows[id].slotId == slot && LapsedPaid(t.rows[id], now)
  {
    set id | id in t.rows && t.rows[id].slotId == slot && LapsedPaid(t.rows[id], now)
  }

  /** The ids of the slot's rows the admin screens show with status `s`. */
  function ShownAs(t: Table, slot: int, now: int, s: UnitStatus): (ids: set<int>)
    ensures forall id :: id in ids <==>
      id in t.rows && t.rows[id].slotId == slot && Ledger.DisplayStatus(t.rows[id], now) == s
  {
    set id | id in t.rows && t.rows[id].slotId == slot && Ledger.DisplayStatus(t.rows[id], now) == s
  }

  lemma CardDiff(a: set<int>, b: set<int>)
    requires b <= a
    ensures |a - b| == |a| - |b|
  {
    assert a == (a - b) + b;
    assert (a - b) * b == {};
  }

  lemma CardUnion(a: set<int>, b: set<int>)
    requires a * b == {}
    ensures |a + b| == |a| + |b|
  {
  }

  /** How the stored-status buckets and the lapsed-paid rows make up the
      displayed buckets. */
  lemma ShownBuckets(t: Table, slot: int, now: int)
    ensures LapsedPaidIds(t, slot, now) <= WithStatus(t, slot, Paid)
    ensures ShownAs(t, slot, now, Paid) == WithStatus(t, slot, Paid) - LapsedPaidIds(t, slot, now)
    ensures ShownAs(t, slot, now, Expired) == WithStatus(t, slot, Expired) + LapsedPaidIds(t, slot, now)
    ensures WithStatus(t, slot, Expired) * LapsedPaidIds(t, slot, now) == {}
    ensures ShownAs(t, slot, now, Available) == WithStatus(t, slot, Available)
    ensures ShownAs(t, slot, now, Pending) == WithStatus(t, slot, Pending)
  {
  }

  /** The four stored-status buckets partition the slot's rows. */
  lemma StatusPartition(t: Table, slot: int)
    ensures |Slots.SlotIds(t, slot)| ==
      |WithStatus(t, slot, Available)| + |WithStatus(t, slot, Pending)| +
      |WithStatus(t, slot, Paid)| + |WithStatus(t, slot, Expired)|
  {
    var a, n := WithStatus(t, slot, Available), WithStatus(t, slot, Pending);
    var p, e := WithStatus(t, slot, Paid), WithStatus(t, slot, Expired);
    forall id | id in Slots.SlotIds(t, slot)
      ensures id in a + n + p + e
    {
      match t.rows[id].status
      case Available => case Pending => case Paid => case Expired =>
    }
    assert Slots.SlotIds(t, slot) == a + n + p + e;
    assert a * n == {} && (a + n) * p == {} && (a + n + p) * e == {};
    CardUnion(a, n);
    CardUnion(a + n, p);
    CardUnion(a + n + p, e);
  }

  /** `get_slot_units_stats`: rows still stored as paid whose term has run
      out are counted as expired, so each bucket holds exactly the rows the
      admin screens display with that status, and the total is the number of
      the slot's rows. */
  function SlotUnitStats(t: Table, slot: int, now: int): (r: Stats)
    ensures r.available == |ShownAs(t, slot, now, Available)|
    ensures r.pending == |ShownAs(t, slot, now, Pending)|
    ensures r.paid == |ShownAs(t, slot, now, Paid)|
    ensures r.expired == |ShownAs(t, slot, now, Expired)|
    ensures r.total == |Slots.SlotIds(t, slot)| == r.available + r.pending + r.paid + r.expired
  {
    var a, n := |WithStatus(t, slot, Available)|, |WithStatus(t, slot, Pending)|;
    var p, e := |WithStatus(t, slot, Paid)|, |WithStatus(t, slot, Expired)|;
    var lapsed := |LapsedPaidIds(t, slot, now)|;
    ShownBuckets(t, slot, now);
    StatusPartition(t, slot);
    CardDiff(WithStatus(t, slot, Paid), LapsedPaidIds(t, slot, now));
    CardUnion(WithStatus(t, slot, Expired), LapsedPaidIds(t, slot, now));
    var paid := if lapsed > 0 then Max(0, p - lapsed) else p;
    var expired := if lapsed > 0 then e + lapsed else e;
    Stats(a, n, paid, expired, a + n + paid + expired)
  }

  // ---------------------------------------------------------------- buyable positions

  /** A row `get_available_units` lists: available, no reserved or sold row
      shares its position, and it has the lowest id among the available rows
      there. */
  predicate Buyable(t: Table, slot: int, id: int) {
    id in t.rows && t.rows[id].slotId == slot && t.rows[id].status == Available &&
    forall j | j in t.rows && SameCell(t.rows[j], t.rows[id]) ::
      !Occupied(t.rows[j]) && (t.rows[j].status == Available ==> id <= j)
  }

  /** Keeps the buyable entries of a sorted listing, in order. */
  function KeepBuyable(t: Table, slot: int, s: seq<Slots.RenderItem>): (r: seq<Slots.RenderItem>)
    requires Slots.SortedItems(s)
    ensures Slots.SortedItems(r)
    ensures forall y | y in r :: y in s && Buyable(t, slot, y.unitId)
    ensures forall y | y in s && Buyable(t, slot, y.unitId) :: y in r
  {
    if s == [] then []
    else
      assert s == [s[0]] + s[1..];
      Slots.SortedCons(s[0], s[1..]);
      var rest := KeepBuyable(t, slot, s[1..]);
      if Buyable(t, slot, s[0].unitId) then
        Slots.SortedCons(s[0], rest);
        [s[0]] + rest
      else rest
  }

  /** `get_available_units`: one entry per free position of the slot, in
      ascending key order. A slot id of 0 is refused. */
  function AvailableUnits(t: Table, slotParam: PVal, now: int): (r: Result<seq<Slots.RenderItem>, AdminError>)
    requires IdsBelowNext(t)
    ensures r.Err? <==> AbsParam(slotParam) == 0
    ensures r.Err? ==> r.error == InvalidParam
    ensures r.Ok? ==> forall y | y in r.value ::
      Buyable(t, AbsParam(slotParam), y.unitId) && y.key == t.rows[y.unitId].key && y.status == Available
    ensures r.Ok? ==> forall id | Buyable(t, AbsParam(slotParam), id) :: id in Slots.Ids(r.value)
    ensures r.Ok? ==> forall i, j | 0 <= i < j < |r.value| :: r.value[i].key < r.value[j].key
  {
    var slot := AbsParam(slotParam);
    if slot == 0 then Err(InvalidParam)
    else
      var all := Slots.UnitsForRender(t, slot, now);
      var s := KeepBuyable(t, slot, all);
      assert forall id | Buyable(t, slot, id) :: id in Slots.Ids(s) by {
        forall id | Buyable(t, slot, id)
          ensures id in Slots.Ids(s)
        {
          assert id in Slots.SlotIds(t, slot);
          var y :| y in all && y.unitId == id;
          assert y in s;
        }
      }
      assert forall i, j | 0 <= i < j < |s| :: s[i].key < s[j].key by {
        forall i, j | 0 <= i < j < |s|
          ensures s[i].key < s[j].key
        {
          assert s[i] in s && s[j] in s;
          assert Slots.Before(s[i], s[j]);
        }
      }
      Ok(s)
  }

  /** With one row per position, the listing is exactly the slot's
      available rows. */
  lemma BuyableIffAvailable(t: Table, slot: int, id: int)
    requires Valid(t)
    ensures Buyable(t, slot, id) <==> id in t.rows && t.rows[id].slotId == slot && t.rows[id].status == Available
  {
  }

  /** A listed position is the one `get_by_slot_and_key` resolves, and both
      a reservation and a manual sale of it go through. */
  lemma BuyableCanBeTaken(t: Table, slot: int, id: int, minutes: int, fields: map<ContentField, Val>,
                          duration: PVal, clock: Clock)
    requires Valid(t) && Buyable(t, slot, id) && slot > 0
    ensures Find(t, slot, t.rows[id].key) == Some(id)
    ensures SetPending(t, slot, t.rows[id].key, minutes, clock).Some?
    ensures t.rows[id].key >= 0 ==> CreateAd(t, PInt(slot), PInt(t.rows[id].key), duration, fields, false, clock).Ok?
  {
    var key := t.rows[id].key;
    var f := Find(t, slot, key);
    assert f.value == id;
  }

  // ---------------------------------------------------------------- create_ad

  /** `create_ad`: sell the available row at a position by hand for
      `max(1, duration)` months with the given content columns. `writeFails`
      stands for a failed unit update. */
  function CreateAd(t: Table, slotParam: PVal, keyParam: PVal, duration: PVal,
                    fields: map<ContentField, Val>, writeFails: bool, clock: Clock): (r: Result<Table, AdminError>)
    ensures AbsParam(slotParam) == 0 ==> r == Err(InvalidParam)
    ensures AbsParam(slotParam) != 0 && Find(t, AbsParam(slotParam), AbsParam(keyParam)).None? ==> r == Err(UnitNotFound)
    ensures r == Err(UnitUnavailable) <==>
      AbsParam(slotParam) != 0 && Find(t, AbsParam(slotParam), AbsParam(keyParam)).Some? &&
      t.rows[Find(t, AbsParam(slotParam), AbsParam(keyParam)).value].status != Available
    ensures r == Err(CreateFailed) ==> writeFails
    ensures r.Ok? <==>
      AbsParam(slotParam) != 0 && Find(t, AbsParam(slotParam), AbsParam(keyParam)).Some? &&
      t.rows[Find(t, AbsParam(slotParam), AbsParam(keyParam)).value].status == Available && !writeFails
    ensures r.Ok? ==>
      var id := Find(t, AbsParam(slotParam), AbsParam(keyParam)).value;
      r.value.nextId == t.nextId && r.value.rows.Keys == t.rows.Keys &&
      (forall j | j in t.rows && j != id :: r.value.rows[j] == t.rows[j])
    ensures r.Ok? ==>
      var v := r.value.rows[Find(t, AbsParam(slotParam), AbsParam(keyParam)).value];
      v.slotId == AbsParam(slotParam) && v.key == AbsParam(keyParam) && v.status == Paid &&
      v.startsAt == Some(clock.unix) && v.endsAt.Some? &&
      v.endsAt.value - v.startsAt.value >= 30 * DaySeconds &&
      v.endsAt.value - v.startsAt.value == Max(1, AbsParam(duration)) * 30 * DaySeconds &&
      (forall f | f in fields :: f in v.content && v.content[f] == fields[f])
  {
    var slot, key := AbsParam(slotParam), AbsParam(keyParam);
    var months := Max(1, AbsParam(duration));
    if slot == 0 then Err(InvalidParam)
    else match Find(t, slot, key)
      case None => Err(UnitNotFound)
      case Some(id) =>
        if t.rows[id].status != Available then Err(UnitUnavailable)
        else if writeFails then Err(CreateFailed)
        else Ok(SetPaid(t, id, AdData(fields, None, None, None, None), months, clock))
  }

  /** A manual sale keeps the table valid, and it never lands on a row that
      was already reserved or sold. */
  lemma CreateAdKeepsValid(t: Table, slotParam: PVal, keyParam: PVal, duration: PVal,
                           fields: map<ContentField, Val>, clock: Clock)
    requires Valid(t)
    ensures var r := CreateAd(t, slotParam, keyParam, duration, fields, false, clock);
      r.Ok? ==> Valid(r.value) && AtMostOneOccupied(r.value)
    ensures var r := CreateAd(t, slotParam, keyParam, duration, fields, false, clock);
      forall id | id in t.rows && Occupied(t.rows[id]) :: r.Ok? ==> r.value.rows[id] == t.rows[id]
  {
    var r := CreateAd(t, slotParam, keyParam, duration, fields, false, clock);
    if r.Ok? {
      var id := Find(t, AbsParam(slotParam), AbsParam(keyParam)).value;
      TransitionsKeepValid(t, id, AdData(fields, None, None, None, None), Max(1, AbsParam(duration)),
                           false, 0, 0, 0, clock);
    }
  }

  // ---------------------------------------------------------------- update_ad

  /** The `ends_at` parameter: a numeric value (already read with `intval`)
      or a date string for `strtotime`. */
  datatype EndsArg = Numeric(n: int) | Text(s: string)

  /** The parameters of `update_ad` that are present. */
  datatype UpdateRequest = UpdateRequest(
    id: PVal,
    fields: map<ContentField, Val>,
    duration: Option<PVal>,
    endsAt: Option<EndsArg>)

  /** The columns `update_ad` writes; absent ones are left alone. */
  datatype UnitPatch = UnitPatch(
    content: map<ContentField, Val>,
    months: Option<int>,
    startsAt: Option<int>,
    endsAt: Option<int>)

  /** The explicit end time, when the parameter yields one: a numeric value,
      or a date `strtotime` parses to a non-zero time (`strtotime` returns 0
      here for a failed parse). */
  function GivenEnds(req: UpdateRequest, strtotime: string -> int): Option<int> {
    match req.endsAt
    case None => None
    case Some(Numeric(n)) => Some(n)
    case Some(Text(s)) => if strtotime(s) != 0 then Some(strtotime(s)) else None
  }

  /** A non-empty stored start is kept; otherwise the new term starts now. */
  function TermStart(u: Unit, now: int): int {
    if u.startsAt.Some? && u.startsAt.value != 0 then u.startsAt.value else now
  }

  /** The patch `update_ad` assembles: the content columns given, a new term
      of `max(1, duration)` months when a duration is given, and an explicit
      end time overriding the computed one. */
  function BuildPatch(u: Unit, req: UpdateRequest, strtotime: string -> int, now: int): (p: UnitPatch)
    ensures p.content == req.fields
    ensures req.duration.Some? <==> p.months.Some?
    ensures p.months.Some? ==> p.months.value >= 1 && p.startsAt == Some(TermStart(u, now))
    ensures p.months.None? ==> p.startsAt.None?
    ensures GivenEnds(req, strtotime).Some? ==> p.endsAt == GivenEnds(req, strtotime)
    ensures GivenEnds(req, strtotime).None? && p.months.Some? ==>
      p.endsAt == Some(p.startsAt.value + p.months.value * 30 * DaySeconds)
    ensures GivenEnds(req, strtotime).None? && p.months.None? ==> p.endsAt.None?
  {
    var term :=
      if req.duration.Some? then
        var months := Max(1, AbsParam(req.duration.value));
        var starts := TermStart(u, now);
        Some((months, starts, starts + months * 30 * DaySeconds))
      else None;
    var ends := if GivenEnds(req, strtotime).Some? then GivenEnds(req, strtotime)
                else if term.Some? then Some(term.value.2) else None;
    UnitPatch(req.fields,
              if term.Some? then Some(term.value.0) else None,
              if term.Some? then Some(term.value.1) else None,
              ends)
  }

  /** The start the end time is checked against: the patch's start, else the
      stored one, else 0 (no check). */
  function StartsRef(u: Unit, p: UnitPatch): int {
    if p.startsAt.Some? then p.startsAt.value else u.startsAt.GetOr(0)
  }

  predicate EmptyPatch(p: UnitPatch) {
    p.content == map[] && p.months.None? && p.startsAt.None? && p.endsAt.None?
  }

  /** `Zibll_Ad_Unit_Model::update`: the patch's columns overwrite the row. */
  function Applied(u: Unit, p: UnitPatch, clock: Clock): (v: Unit)
    ensures SameCell(u, v) && v.status == u.status && v.orderId == u.orderId && v.price == u.price
    ensures v.pendingExpiresAt == u.pendingExpiresAt
    ensures forall f | f in p.content :: f in v.content && v.content[f] == p.content[f]
    ensures forall f | f !in p.content :: (f in v.content <==> f in u.content)
    ensures forall f | f !in p.content && f in u.content :: v.content[f] == u.content[f]
    ensures (p.startsAt.Some? ==> v.startsAt == p.startsAt) && (p.startsAt.None? ==> v.startsAt == u.startsAt)
    ensures (p.endsAt.Some? ==> v.endsAt == p.endsAt) && (p.endsAt.None? ==> v.endsAt == u.endsAt)
    ensures (p.months.Some? ==> v.durationMonths == p.months.value) && (p.months.None? ==> v.durationMonths == u.durationMonths)
  {
    u.(content := u.content + p.content,
       durationMonths := Patch(u.durationMonths, p.months),
       startsAt := if p.startsAt.Some? then p.startsAt else u.startsAt,
       endsAt := if p.endsAt.Some? then p.endsAt else u.endsAt,
       updatedAt := clock.local)
  }

  /** `update_ad`: edit a unit's content and term. An end time that is not
      after a non-zero start is refused, an empty request is refused, and
      `writeFails` stands for a failed update. */
  function UpdateAd(t: Table, req: UpdateRequest, strtotime: string -> int, writeFails: bool, clock: Clock): (r: Result<Table, AdminError>)
    ensures AbsParam(req.id) == 0 ==> r == Err(InvalidParam)
    ensures AbsParam(req.id) != 0 && AbsParam(req.id) !in t.rows ==> r == Err(AdNotFound)
    ensures r == Err(NothingToUpdate) <==>
      AbsParam(req.id) != 0 && AbsParam(req.id) in t.rows &&
      req.fields == map[] && req.duration.None? && GivenEnds(req, strtotime).None?
    ensures r == Err(UpdateFailed) ==> writeFails
    ensures r.Ok? ==>
      var id := AbsParam(req.id);
      id in t.rows && !writeFails &&
      r.value.nextId == t.nextId && r.value.rows.Keys == t.rows.Keys &&
      (forall j | j in t.rows && j != id :: r.value.rows[j] == t.rows[j])
    ensures r.Ok? ==>
      var u, v := t.rows[AbsParam(req.id)], r.value.rows[AbsParam(req.id)];
      SameCell(u, v) && v.status == u.status && v.orderId == u.orderId &&
      (forall f | f in req.fields :: f in v.content && v.content[f] == req.fields[f]) &&
      (forall f | f !in req.fields && f in u.content :: f in v.content && v.content[f] == u.content[f])
    ensures r.Ok? && req.duration.Some? ==>
      var u, v := t.rows[AbsParam(req.id)], r.value.rows[AbsParam(req.id)];
      v.durationMonths >= 1 && v.startsAt == Some(TermStart(u, clock.unix)) &&
      (GivenEnds(req, strtotime).None? ==>
         v.endsAt == Some(v.startsAt.value + v.durationMonths * 30 * DaySeconds))
    ensures r.Ok? && GivenEnds(req, strtotime).Some? ==>
      r.value.rows[AbsParam(req.id)].endsAt == GivenEnds(req, strtotime)
    ensures r.Ok? && (req.duration.Some? || GivenEnds(req, strtotime).Some?) ==>
      var v := r.value.rows[AbsParam(req.id)];
      v.endsAt.Some? && (v.startsAt.GetOr(0) == 0 || v.endsAt.value > v.startsAt.value)
    ensures r.Ok? && req.duration.None? && GivenEnds(req, strtotime).None? ==>
      var u, v := t.rows[AbsParam(req.id)], r.value.rows[AbsParam(req.id)];
      v.startsAt == u.startsAt && v.endsAt == u.endsAt && v.durationMonths == u.durationMonths
  {
    var id := AbsParam(req.id);
    if id == 0 then Err(InvalidParam)
    else if id !in t.rows then Err(AdNotFound)
    else
      var u := t.rows[id];
      var p := BuildPatch(u, req, strtotime, clock.unix);
      var sref := StartsRef(u, p);
      if p.endsAt.Some? && sref != 0 && p.endsAt.value <= sref then Err(InvalidParam)
      else if EmptyPatch(p) then Err(NothingToUpdate)
      else if writeFails then Err(UpdateFailed)
      else Ok(Put(t, id, Applied(u, p, clock)))
  }

  /** Changing only the duration is never refused: the computed end lies
      whole months after the start. */
  lemma DurationOnlyUpdateIsAccepted(t: Table, req: UpdateRequest, strtotime: string -> int, clock: Clock)
    requires AbsParam(req.id) != 0 && AbsParam(req.id) in t.rows
    requires req.duration.Some? && GivenEnds(req, strtotime).None?
    ensures UpdateAd(t, req, strtotime, false, clock).Ok?
  {
    var u := t.rows[AbsParam(req.id)];
    var p := BuildPatch(u, req, strtotime, clock.unix);
    assert p.endsAt.value > StartsRef(u, p);
  }

  /** An edit keeps the table valid: status and position never change, and
      a sold row keeps a start and an end. */
  lemma UpdateAdKeepsValid(t: Table, req: UpdateRequest, strtotime: string -> int, clock: Clock)
    requires Valid(t)
    ensures UpdateAd(t, req, strtotime, false, clock).Ok? ==>
      Valid(UpdateAd(t, req, strtotime, false, clock).value)
  {
    var r := UpdateAd(t, req, strtotime, false, clock);
    if r.Ok? {
      PutKeepsValid(t, AbsParam(req.id), r.value.rows[AbsParam(req.id)]);
    }
  }

  // ---------------------------------------------------------------- takedown_ad

  /** A paid order row of the unit. */
  predicate PaidFor(row: Ledger.OrderRow, unitId: int) {
    row.unitId == unitId && row.status == Ledger.PayPaid
  }

  /** `ORDER BY paid_at DESC, id DESC`: a NULL `paid_at` sorts last. */
  predicate PaidBefore(a: Ledger.OrderRow, i: int, b: Ledger.OrderRow, j: int) {
    (a.paidAt.Some? && (b.paidAt.None? || a.paidAt.value > b.paidAt.value)) ||
    (a.paidAt == b.paidAt && i > j)
  }

  /** The first paid row of the unit in that order, scanning ids from `i`
      with the best so far in `acc`. */
  function LatestPaidFrom(l: Ledger.Orders, unitId: int, i: int, acc: Option<int>): (r: Option<int>)
    requires acc.Some? ==> acc.value in l.rows && PaidFor(l.rows[acc.value], unitId)
    ensures r.Some? ==> r.value in l.rows && PaidFor(l.rows[r.value], unitId)
    ensures acc.Some? ==> r.Some? && (r.value == acc.value || PaidBefore(l.rows[r.value], r.value, l.rows[acc.value], acc.value))
    ensures forall j | i <= j < l.nextId && j in l.rows && PaidFor(l.rows[j], unitId) ::
      r.Some? && (r.value == j || PaidBefore(l.rows[r.value], r.value, l.rows[j], j))
    decreases l.nextId - i
  {
    if i >= l.nextId then acc
    else if i in l.rows && PaidFor(l.rows[i], unitId) &&
            (acc.None? || PaidBefore(l.rows[i], i, l.rows[acc.value], acc.value)) then
      LatestPaidFrom(l, unitId, i + 1, Some(i))
    else LatestPaidFrom(l, unitId, i + 1, acc)
  }

  /** The unit's most recent paid order: `None` only when it has none. */
  function LatestPaid(l: Ledger.Orders, unitId: int): (r: Option<int>)
    requires Ledger.IdsBelowNext(l)
    ensures r.Some? ==> r.value in l.rows && PaidFor(l.rows[r.value], unitId)
    ensures r.Some? ==> forall j | j in l.rows && j != r.value && PaidFor(l.rows[j], unitId) ::
      PaidBefore(l.rows[r.value], r.value, l.rows[j], j)
    ensures r.None? ==> forall j | j in l.rows :: !PaidFor(l.rows[j], unitId)
  {
    LatestPaidFrom(l, unitId, 1, None)
  }

  function TakenDown(row: Ledger.OrderRow, clock: Clock): Ledger.OrderRow {
    row.(status := Ledger.PayTakedown, closedAt := Some(clock.local))
  }

  /** `takedown_ad`: end a sold ad from the unit side. Only a row stored as
      paid qualifies; it is released with its content cleared, and the
      unit's most recent paid order, if any, becomes `takedown`.
      `writeFails` stands for a failed unit update. */
  function TakedownAd(t: Table, l: Ledger.Orders, idParam: PVal, writeFails: bool, clock: Clock): (r: Result<(Table, Ledger.Orders), AdminError>)
    requires Ledger.IdsBelowNext(l)
    ensures AbsParam(idParam) == 0 ==> r == Err(InvalidParam)
    ensures AbsParam(idParam) != 0 && AbsParam(idParam) !in t.rows ==> r == Err(AdNotFound)
    ensures AbsParam(idParam) in t.rows && t.rows[AbsParam(idParam)].status != Paid && AbsParam(idParam) != 0 ==>
      r == Err(InvalidStatus)
    ensures r.Ok? <==> (AbsParam(idParam) != 0 && AbsParam(idParam) in t.rows &&
      t.rows[AbsParam(idParam)].status == Paid && !writeFails)
    ensures r.Ok? ==>
      var id := AbsParam(idParam);
      r.value.0.nextId == t.nextId && r.value.0.rows.Keys == t.rows.Keys &&
      r.value.0.rows[id] == Cleared(t.rows[id], clock) &&
      (forall j | j in t.rows && j != id :: r.value.0.rows[j] == t.rows[j])
    ensures r.Ok? ==> r.value.1.nextId == l.nextId && r.value.1.rows.Keys == l.rows.Keys
    ensures r.Ok? ==>
      var id := AbsParam(idParam);
      (forall o | o in l.rows && !PaidFor(l.rows[o], id) :: r.value.1.rows[o] == l.rows[o]) &&
      (forall o | o in l.rows && PaidFor(l.rows[o], id) ::
         r.value.1.rows[o] == l.rows[o] || r.value.1.rows[o] == TakenDown(l.rows[o], clock))
    ensures r.Ok? ==>
      var id := AbsParam(idParam);
      forall o | o in l.rows && r.value.1.rows[o] != l.rows[o] ::
        PaidFor(l.rows[o], id) && r.value.1.rows[o].status == Ledger.PayTakedown &&
        forall j | j in l.rows && j != o && PaidFor(l.rows[j], id) :: PaidBefore(l.rows[o], o, l.rows[j], j)
    ensures r.Ok? ==>
      var id := AbsParam(idParam);
      (exists o :: o in l.rows && PaidFor(l.rows[o], id)) ==>
        exists o :: o in l.rows && r.value.1.rows[o] == TakenDown(l.rows[o], clock) && PaidFor(l.rows[o], id)
  {
    var id := AbsParam(idParam);
    if id == 0 then Err(InvalidParam)
    else if id !in t.rows then Err(AdNotFound)
    else if t.rows[id].status != Paid then Err(InvalidStatus)
    else if writeFails then Err(TakedownFailed)
    else
      var t1 := SetAvailable(t, id, true, clock);
      match LatestPaid(l, id)
      case None => Ok((t1, l))
      case Some(o) =>
        var l1 := Ledger.Orders(l.rows[o := TakenDown(l.rows[o], clock)], l.nextId);
        assert l1.rows[o] == TakenDown(l.rows[o], clock);
        Ok((t1, l1))
  }

  /** A takedown keeps both tables' invariants: the unit table stays valid
      and no provider order gains a second row. */
  lemma TakedownAdKeepsInvariants(t: Table, l: Ledger.Orders, idParam: PVal, clock: Clock)
    requires Valid(t) && Ledger.IdsBelowNext(l) && Ledger.UniqueProviderIds(l)
    ensures var r := TakedownAd(t, l, idParam, false, clock);
      r.Ok? ==> Valid(r.value.0) && Ledger.IdsBelowNext(r.value.1) && Ledger.UniqueProviderIds(r.value.1)
  {
    var r := TakedownAd(t, l, idParam, false, clock);
    if r.Ok? {
      var id := AbsParam(idParam);
      assert r.value.0 == SetAvailable(t, id, true, clock);
      TransitionsKeepValid(t, id, AdData(map[], None, None, None, None), 0, true, 0, 0, 0, clock);
      var l1 := r.value.1;
      assert forall o | o in l1.rows :: l1.rows[o].zid == l.rows[o].zid by {
        forall o | o in l1.rows
          ensures l1.rows[o].zid == l.rows[o].zid
        {
          assert l1.rows[o] == l.rows[o] || l1.rows[o] == TakenDown(l.rows[o], clock);
        }
      }
      forall a, b, z | a in l1.rows && b in l1.rows && a != b && Ledger.Carries(l1.rows[a], z)
        ensures !Ledger.Carries(l1.rows[b], z)
      {
        assert Ledger.Carries(l.rows[a], z);
      }
    }
  }

  // ---------------------------------------------------------------- display layout

  datatype LayoutError = InvalidDisplayLayout | InvalidMaxItems | InvalidPerRow

  /** `validate_display_layout`: the layout must be an array (`None` stands
      for any other value); `max_items`, when set, must be positive, and
      `per_row`, when set, within 1..8. The first failing check is
      reported. */
  function ValidateDisplayLayout(layout: Option<map<string, PVal>>): (r: Result<(), LayoutError>)
    ensures layout.None? ==> r == Err(InvalidDisplayLayout)
    ensures layout.Some? && Isset(layout.value, "max_items") && ToInt(layout.value["max_items"]) <= 0 ==>
      r == Err(InvalidMaxItems)
    ensures r == Err(InvalidPerRow) ==>
      Isset(layout.value, "per_row") && !(1 <= ToInt(layout.value["per_row"]) <= 8)
    ensures r.Ok? <==> (layout.Some? &&
      (Isset(layout.value, "max_items") ==> ToInt(layout.value["max_items"]) > 0) &&
      (Isset(layout.value, "per_row") ==> 1 <= ToInt(layout.value["per_row"]) <= 8))
  {
    if layout.None? then Err(InvalidDisplayLayout)
    else if Isset(layout.value, "max_items") && ToInt(layout.value["max_items"]) <= 0 then Err(InvalidMaxItems)
    else if Isset(layout.value, "per_row") && (ToInt(layout.value["per_row"]) < 1 || ToInt(layout.value["per_row"]) > 8) then
      Err(InvalidPerRow)
    else Ok(())
  }

  /** A slot created from an accepted layout has at least one sellable
      position, and resizing to an accepted layout keeps position 0, or
      provisions it when the slot grows. */
  lemma AcceptedLayoutProvisionsUnits(t: Table, slot: int, layout: map<string, PVal>, clock: Clock)
    requires IdsBelowNext(t)
    requires ValidateDisplayLayout(Some(layout)).Ok?
    ensures Find(Slots.NewSlotUnits(t, slot, layout, clock), slot, 0).Some?
    ensures var r := Slots.NewSlotUnits(t, slot, layout, clock);
      var id := Find(r, slot, 0).value;
      id !in t.rows ==> r.rows[id].status == Available
    ensures Find(t, slot, 0).Some? ==> Find(Slots.UpdateSlotUnits(t, slot, Some(layout), clock), slot, 0).Some?
    ensures Isset(layout, "max_items") && ToInt(layout["max_items"]) > |Slots.SlotIds(t, slot)| ==>
      Find(Slots.UpdateSlotUnits(t, slot, Some(layout), clock), slot, 0).Some?
  {
    var r := Slots.UpdateSlotUnits(t, slot, Some(layout), clock);
    if Find(t, slot, 0).Some? {
      var id := Find(t, slot, 0).value;
      assert id in r.rows && r.rows[id] == t.rows[id];
    }
  }
}
