/** The order ledger: one row per purchase attempt, keyed by its
    auto-increment id and linked to the payment provider's order by
    `zibpay_order_id`; the admin-side operations of the order model
    (takedown, delete with its deny-list, the display normalisation of a row
    and the list-query arguments). */
module Ledger {
  import opened Common
  import Units

  datatype PayStatus = PayPending | PayPaid | PayRefunded | PayTakedown | PayTimeout

  /** The unserialized `customer_snapshot`: its top-level contact fields and
      its `ad_data` array (`None` when absent or not an array). A stored
      value that does not unserialize to an array reads as the empty
      snapshot. */
  datatype Snapshot = Snapshot(fields: map<Units.ContentField, Val>, adData: Option<map<Units.ContentField, Val>>)

  /** One row of the orders table. Money is in cents; `createdAt`, `paidAt`
      and `closedAt` are site-local wall time. */
  datatype OrderRow = OrderRow(
    unitId: int,
    slotId: int,
    zid: Option<int>,
    paymentId: Option<int>,
    orderNum: Option<string>,
    userId: int,
    snapshot: Snapshot,
    attemptToken: Option<string>,
    planType: string,
    duration: int,
    basePrice: int,
    colorPrice: int,
    totalPrice: int,
    paymentMethod: Option<string>,
    status: PayStatus,
    createdAt: int,
    paidAt: Option<int>,
    closedAt: Option<int>)

  datatype Orders = Orders(rows: map<int, OrderRow>, nextId: int)

  ghost predicate IdsBelowNext(l: Orders) {
    1 <= l.nextId && forall id | id in l.rows :: 1 <= id < l.nextId
  }

  /** The row carries the provider order `z` (a positive provider id). */
  predicate Carries(row: OrderRow, z: int) {
    z > 0 && row.zid == Some(z)
  }

  /** The idempotence claim of the ledger: no provider order has two rows. */
  ghost predicate UniqueProviderIds(l: Orders) {
    forall a, b, z | a in l.rows && b in l.rows && a != b && Carries(l.rows[a], z) :: !Carries(l.rows[b], z)
  }

  /** The ids of the rows that carry provider order `z` (a SQL
      `WHERE zibpay_order_id = z`). */
  function RowsOf(l: Orders, z: int): (s: set<int>)
    ensures forall id :: id in s <==> id in l.rows && l.rows[id].zid == Some(z)
  {
    set id | id in l.rows && l.rows[id].zid == Some(z)
  }

  /** Appends a row under the next auto-increment id. */
  function Append(l: Orders, row: OrderRow): (r: Orders)
    requires IdsBelowNext(l)
    ensures IdsBelowNext(r) && l.nextId !in l.rows
    ensures r.rows == l.rows[l.nextId := row] && r.nextId == l.nextId + 1
  {
    Orders(l.rows[l.nextId := row], l.nextId + 1)
  }

  /** A SQL UPDATE: every row whose id is in `ids` is rewritten by `f`. */
  function UpdateWhere(l: Orders, ids: set<int>, f: OrderRow -> OrderRow): (r: Orders)
    ensures r.nextId == l.nextId && r.rows.Keys == l.rows.Keys
    ensures forall id | id in l.rows && id in ids :: r.rows[id] == f(l.rows[id])
    ensures forall id | id in l.rows && id !in ids :: r.rows[id] == l.rows[id]
  {
    Orders(map id | id in l.rows :: if id in ids then f(l.rows[id]) else l.rows[id], l.nextId)
  }

  /** The rows `WHERE attempt_token = token AND pay_status = 'pending'`. */
  function PendingWithToken(l: Orders, token: string): (s: set<int>)
    ensures forall id :: id in s <==> id in l.rows && l.rows[id].attemptToken == Some(token) && l.rows[id].status == PayPending
  {
    set id | id in l.rows && l.rows[id].attemptToken == Some(token) && l.rows[id].status == PayPending
  }

  /** No two pending rows share an attempt token: each reservation writes
      one pending row under its own token. */
  ghost predicate TokensUnique(l: Orders) {
    forall a, b, tok | a in l.rows && b in l.rows && a != b && l.rows[a].status == PayPending &&
                       l.rows[a].attemptToken == Some(tok) && l.rows[b].status == PayPending ::
      l.rows[b].attemptToken != Some(tok)
  }

  /** An UPDATE that leaves every provider id as it was adds no duplicate. */
  lemma UpdateKeepingIdsKeepsUnique(l: Orders, ids: set<int>, f: OrderRow -> OrderRow)
    requires UniqueProviderIds(l)
    requires forall id | id in l.rows && id in ids :: f(l.rows[id]).zid == l.rows[id].zid
    ensures UniqueProviderIds(UpdateWhere(l, ids, f))
  {
    var r := UpdateWhere(l, ids, f);
    forall x, y, w | x in r.rows && y in r.rows && x != y && Carries(r.rows[x], w)
      ensures !Carries(r.rows[y], w)
    {
      assert r.rows[x].zid == l.rows[x].zid && r.rows[y].zid == l.rows[y].zid;
      assert Carries(l.rows[x], w);
    }
  }

  /** An UPDATE of at most the one row `a` that gives it a provider id no
      other row carries adds no duplicate. */
  lemma UpdateOneKeepsUnique(l: Orders, ids: set<int>, f: OrderRow -> OrderRow, a: int, z: int)
    requires UniqueProviderIds(l)
    requires forall id | id in l.rows && id in ids :: id == a
    requires a in l.rows && a in ids ==> f(l.rows[a]).zid == Some(z)
    requires forall b | b in l.rows && b != a :: !Carries(l.rows[b], z)
    ensures UniqueProviderIds(UpdateWhere(l, ids, f))
  {
    var r := UpdateWhere(l, ids, f);
    forall x, y, w | x in r.rows && y in r.rows && x != y && Carries(r.rows[x], w)
      ensures !Carries(r.rows[y], w)
    {
      if x == a && a in ids {
        assert w == z;
      } else if y == a && a in ids {
        assert Carries(l.rows[x], w);
      } else {
        assert Carries(l.rows[x], w);
      }
    }
  }

  /** Appending a row whose provider order no row carries adds no
      duplicate. */
  lemma AppendKeepsUnique(l: Orders, row: OrderRow)
    requires IdsBelowNext(l) && UniqueProviderIds(l)
    requires forall b, z | b in l.rows && Carries(row, z) :: !Carries(l.rows[b], z)
    ensures UniqueProviderIds(Append(l, row))
  {
    var r := Append(l, row);
    forall x, y, w | x in r.rows && y in r.rows && x != y && Carries(r.rows[x], w)
      ensures !Carries(r.rows[y], w)
    {
      if x == l.nextId {
        assert y in l.rows;
      } else if y == l.nextId {
        assert Carries(l.rows[x], w);
      }
    }
  }

  /** The status the order list shows for a unit: a row still `paid` whose
      end time is set, positive and reached is shown as `expired`. */
  function DisplayStatus(u: Units.Unit, now: int): (s: Units.UnitStatus)
    ensures s == Units.Paid <==> u.status == Units.Paid && !(u.endsAt.Some? && 0 < u.endsAt.value <= now)
    ensures s != u.status ==> u.status == Units.Paid && s == Units.Expired
  {
    if u.status == Units.Paid && u.endsAt.Some? && u.endsAt.value != 0 && u.endsAt.value > 0 && u.endsAt.value <= now
    then Units.Expired
    else u.status
  }

  /** The `unit_status` column of the joined order row: `None` when the
      LEFT JOIN finds no unit. */
  function JoinedStatus(t: Units.Table, unitId: int, now: int): (s: Option<Units.UnitStatus>)
    ensures s.None? <==> unitId !in t.rows
  {
    if unitId in t.rows then Some(DisplayStatus(t.rows[unitId], now)) else None
  }

  datatype OrderError =
    | OrderNotFound | InvalidStatus | InvalidOrder | InvalidUnitStatus
    | TakedownFailed | DeleteFailed

  /** `takedown`: end a paid order early. The checks run in order and the
      first that fails is returned with nothing written; `writeFails` stands
      for a failed unit update. On success the unit is released with its
      content cleared and the order becomes `takedown` with `closed_at`. */
  function Takedown(l: Orders, t: Units.Table, orderId: int, writeFails: bool, clock: Clock): (r: Result<(Orders, Units.Table), OrderError>)
    ensures orderId !in l.rows ==> r == Err(OrderNotFound)
    ensures orderId in l.rows && l.rows[orderId].status != PayPaid ==> r == Err(InvalidStatus)
    ensures orderId in l.rows && l.rows[orderId].status == PayPaid && l.rows[orderId].unitId == 0 ==>
      r == Err(InvalidOrder)
    ensures (orderId in l.rows && l.rows[orderId].status == PayPaid && l.rows[orderId].unitId != 0 &&
             JoinedStatus(t, l.rows[orderId].unitId, clock.unix) != Some(Units.Paid)) ==> r == Err(InvalidUnitStatus)
    ensures r == Err(TakedownFailed) <==>
      (writeFails && orderId in l.rows && l.rows[orderId].unitId != 0 &&
       JoinedStatus(t, l.rows[orderId].unitId, clock.unix) == Some(Units.Paid) && l.rows[orderId].status == PayPaid)
    ensures r.Ok? ==>
      var row := l.rows[orderId];
      !writeFails && row.status == PayPaid && row.unitId in t.rows &&
      r.value.1.rows.Keys == t.rows.Keys && t.rows[row.unitId].status == Units.Paid &&
      r.value.1.rows[row.unitId] == Units.Cleared(t.rows[row.unitId], clock) &&
      (forall j | j in t.rows && j != row.unitId :: r.value.1.rows[j] == t.rows[j]) &&
      r.value.0.rows == l.rows[orderId := row.(status := PayTakedown, closedAt := Some(clock.local))] &&
      r.value.0.nextId == l.nextId && r.value.1.nextId == t.nextId
  {
    if orderId !in l.rows then Err(OrderNotFound)
    else
      var row := l.rows[orderId];
      if row.status != PayPaid then Err(InvalidStatus)
      else if row.unitId == 0 then Err(InvalidOrder)
      else if JoinedStatus(t, row.unitId, clock.unix) != Some(Units.Paid) then Err(InvalidUnitStatus)
      else if writeFails then Err(TakedownFailed)
      else
        var t1 := Units.SetAvailable(t, row.unitId, true, clock);
        Ok((Orders(l.rows[orderId := row.(status := PayTakedown, closedAt := Some(clock.local))], l.nextId), t1))
  }

  /** A takedown keeps both tables' invariants: the unit table stays valid
      and no provider order gains a second row. */
  lemma TakedownKeepsInvariants(l: Orders, t: Units.Table, orderId: int, clock: Clock)
    requires Units.Valid(t) && IdsBelowNext(l) && UniqueProviderIds(l)
    ensures Takedown(l, t, orderId, false, clock).Ok? ==>
      Units.Valid(Takedown(l, t, orderId, false, clock).value.1) &&
      IdsBelowNext(Takedown(l, t, orderId, false, clock).value.0) &&
      UniqueProviderIds(Takedown(l, t, orderId, false, clock).value.0)
  {
    var r := Takedown(l, t, orderId, false, clock);
    if r.Ok? {
      var l1, t1 := r.value.0, r.value.1;
      var uid := l.rows[orderId].unitId;
      assert forall id | id in t1.rows :: Units.SameCell(t1.rows[id], t.rows[id]);
      assert forall id | id in l1.rows :: l1.rows[id].zid == l.rows[id].zid;
      forall a, b, z | a in l1.rows && b in l1.rows && a != b && Carries(l1.rows[a], z)
        ensures !Carries(l1.rows[b], z)
      {
        assert Carries(l.rows[a], z);
      }
    }
  }

  /** A unit still marked `paid` whose term has run out cannot be taken
      down: the check reads the display status, not the stored one. */
  lemma TakedownRefusesLapsedTerm(l: Orders, t: Units.Table, orderId: int, writeFails: bool, clock: Clock)
    requires orderId in l.rows && l.rows[orderId].status == PayPaid
    requires l.rows[orderId].unitId in t.rows && l.rows[orderId].unitId != 0
    requires t.rows[l.rows[orderId].unitId].status == Units.Paid
    requires t.rows[l.rows[orderId].unitId].endsAt == Some(clock.unix) && clock.unix > 0
    ensures Takedown(l, t, orderId, writeFails, clock) == Err(InvalidUnitStatus)
  {
  }

  /** The size the deny-list is held to. */
  const DenyCap: int := 1000

  /** `array_slice($ids, -1000)` when the list has grown past the cap. */
  function CapDeny(d: seq<int>): (r: seq<int>)
    ensures |d| <= DenyCap ==> r == d
    ensures |d| > DenyCap ==> |r| == DenyCap
    ensures |r| <= |d| && r == d[|d| - |r|..]
  {
    if |d| > DenyCap then d[|d| - DenyCap..] else d
  }

  predicate NoDuplicates(d: seq<int>) {
    forall i, j | 0 <= i < j < |d| :: d[i] != d[j]
  }

  /** Records a deleted provider order on the deny-list: appended when not
      already there, then trimmed to the most recent entries. */
  function RecordDeleted(deny: seq<int>, z: int): (r: seq<int>)
    ensures z in r
    ensures forall x | x in r :: x in deny || x == z
    ensures NoDuplicates(deny) ==> NoDuplicates(r)
    ensures |deny| <= DenyCap ==> |r| <= DenyCap
    ensures z in deny ==> r == deny
    ensures z !in deny && |deny| < DenyCap ==> r == deny + [z]
  {
    if z in deny then deny
    else
      CappedAppend(deny, z);
      CapDeny(deny + [z])
  }

  /** Trimming the list with a new id appended keeps that id, brings in
      nothing else, and keeps the entries distinct. */
  lemma CappedAppend(deny: seq<int>, z: int)
    requires z !in deny
    ensures var r := CapDeny(deny + [z]);
      z in r && (forall x | x in r :: x in deny || x == z) && (NoDuplicates(deny) ==> NoDuplicates(r))
  {
    var d := deny + [z];
    var r := CapDeny(d);
    assert r[|r| - 1] == d[|d| - 1] == z;
    SuffixKeeps(d, |d| - |r|);
    if NoDuplicates(deny) {
      assert NoDuplicates(d);
    }
  }

  /** A suffix holds only elements of the list, and no duplicates when the
      list has none. */
  lemma SuffixKeeps(d: seq<int>, off: nat)
    requires off <= |d|
    ensures forall x | x in d[off..] :: x in d
    ensures NoDuplicates(d) ==> NoDuplicates(d[off..])
  {
    var r := d[off..];
    forall x | x in r ensures x in d {
      var i :| 0 <= i < |r| && r[i] == x;
      assert d[off + i] == x;
    }
    if NoDuplicates(d) {
      forall i, j | 0 <= i < j < |r| ensures r[i] != r[j] {
        assert r[i] == d[off + i] && r[j] == d[off + j];
      }
    }
  }

  /** `delete`: remove an order row. The provider id of the row (when
      positive) is written to the deny-list BEFORE the row is deleted, so
      the list keeps it even when the delete itself fails (`writeFails`). */
  function Delete(l: Orders, deny: seq<int>, orderId: int, writeFails: bool): (r: (Result<Orders, OrderError>, seq<int>))
    ensures orderId !in l.rows ==> r == (Err(OrderNotFound), deny)
    ensures orderId in l.rows && l.rows[orderId].zid.Some? && l.rows[orderId].zid.value > 0 ==>
      l.rows[orderId].zid.value in r.1
    ensures orderId in l.rows && !(l.rows[orderId].zid.Some? && l.rows[orderId].zid.value > 0) ==> r.1 == deny
    ensures forall x | x in r.1 :: x in deny || (orderId in l.rows && l.rows[orderId].zid == Some(x))
    ensures NoDuplicates(deny) ==> NoDuplicates(r.1)
    ensures |deny| <= DenyCap ==> |r.1| <= DenyCap
    ensures r.0.Err? <==> orderId !in l.rows || writeFails
    ensures r.0.Ok? ==> r.0.value == Orders(l.rows - {orderId}, l.nextId)
  {
    if orderId !in l.rows then (Err(OrderNotFound), deny)
    else
      var z := l.rows[orderId].zid.GetOr(0);
      var deny1 := if z > 0 then RecordDeleted(deny, z) else deny;
      if writeFails then (Err(DeleteFailed), deny1)
      else (Ok(Orders(l.rows - {orderId}, l.nextId)), deny1)
  }

  /** Deleting rows never brings back a second row for a provider order. */
  lemma DeleteKeepsUnique(l: Orders, deny: seq<int>, orderId: int, writeFails: bool)
    requires UniqueProviderIds(l) && IdsBelowNext(l)
    ensures Delete(l, deny, orderId, writeFails).0.Ok? ==>
      UniqueProviderIds(Delete(l, deny, orderId, writeFails).0.value) &&
      IdsBelowNext(Delete(l, deny, orderId, writeFails).0.value)
  {
  }

  /** The joined view of an order row as the admin list shows it. */
  datatype OrderView = OrderView(
    unitStatus: Option<Units.UnitStatus>,
    isActive: bool,
    customerName: Val,
    websiteName: Val,
    websiteUrl: Val,
    contactType: Val,
    contactValue: Val)

  /** The first candidate that is set (PHP `isset` chains), else "". */
  function FirstSet(cands: seq<Option<Val>>): (v: Val)
    ensures (exists i | 0 <= i < |cands| :: cands[i].Some?) || v == Str("")
    ensures forall i | 0 <= i < |cands| && cands[i].Some? && (forall j | 0 <= j < i :: cands[j].None?) ::
      v == cands[i].value
  {
    if cands == [] then Str("")
    else if cands[0].Some? then cands[0].value
    else FirstSet(cands[1..])
  }

  function Lookup(m: map<Units.ContentField, Val>, f: Units.ContentField): Option<Val> {
    if f in m then Some(m[f]) else None
  }

  /** A live column of the joined unit, `None` for NULL or no unit. */
  function Live(unit: Option<Units.Unit>, f: Units.ContentField): Option<Val> {
    if unit.Some? then Lookup(unit.value.content, f) else None
  }

  /** The value shown for a field: the live one unless it is PHP-empty. */
  function Shown(live: Option<Val>, fallback: seq<Option<Val>>): Val {
    if live.Some? && !EmptyVal(live.value) then live.value else FirstSet(fallback)
  }

  function AdOf(s: Snapshot): map<Units.ContentField, Val> {
    if s.adData.Some? then s.adData.value else map[]
  }

  /** The snapshot fallback chain of one field: the snapshot's own entry,
      then the one in its `ad_data`. */
  function Chain(s: Snapshot, f: Units.ContentField): seq<Option<Val>> {
    [Lookup(s.fields, f), Lookup(AdOf(s), f)]
  }

  /** `normalize_order_row` for the fields it derives: the corrected unit
      status, `is_active`, and the five customer fields with their snapshot
      fallbacks. The contact columns are not part of the join, so they
      always come from the snapshot. */
  function NormalizeRow(row: OrderRow, unit: Option<Units.Unit>, now: int): (v: OrderView)
    ensures v.isActive <==> v.unitStatus == Some(Units.Paid)
    ensures v.unitStatus.None? <==> unit.None?
    ensures (unit.Some? && unit.value.status == Units.Paid && unit.value.endsAt.Some? &&
             0 < unit.value.endsAt.value <= now) ==> v.unitStatus == Some(Units.Expired)
    ensures v.isActive ==> unit.Some? && unit.value.status == Units.Paid
    ensures Live(unit, Units.WebsiteName).Some? && !EmptyVal(Live(unit, Units.WebsiteName).value) ==>
      v.websiteName == Live(unit, Units.WebsiteName).value
    ensures v.contactType == FirstSet(Chain(row.snapshot, Units.ContactType))
    ensures v.contactValue == FirstSet(Chain(row.snapshot, Units.ContactValue))
  {
    var status := if unit.Some? then Some(DisplayStatus(unit.value, now)) else None;
    var s := row.snapshot;
    OrderView(
      status,
      status == Some(Units.Paid),
      Shown(Live(unit, Units.CustomerName),
            [Lookup(s.fields, Units.CustomerName), Lookup(AdOf(s), Units.CustomerName), Lookup(AdOf(s), Units.WebsiteName)]),
      Shown(Live(unit, Units.WebsiteName), Chain(s, Units.WebsiteName)),
      Shown(Live(unit, Units.WebsiteUrl), Chain(s, Units.WebsiteUrl)),
      FirstSet(Chain(s, Units.ContactType)),
      FirstSet(Chain(s, Units.ContactValue)))
  }

  /** After a takedown clears the unit, the list still shows what the buyer
      entered: every customer field comes from the order's snapshot. */
  lemma ClearedUnitShowsSnapshot(row: OrderRow, u: Units.Unit, clock: Clock, now: int)
    ensures var v := NormalizeRow(row, Some(Units.Cleared(u, clock)), now);
      v.unitStatus == Some(Units.Available) && !v.isActive &&
      v.websiteName == FirstSet(Chain(row.snapshot, Units.WebsiteName)) &&
      v.websiteUrl == FirstSet(Chain(row.snapshot, Units.WebsiteUrl)) &&
      (Units.CustomerName in row.snapshot.fields ==> v.customerName == row.snapshot.fields[Units.CustomerName])
  {
  }

  /** The list's order column: one of four, `created_at` otherwise. */
  datatype OrderBy = ById | ByCreatedAt | ByPaidAt | ByTotalPrice

  /** One WHERE condition of the list query. */
  datatype Filter =
    | KeywordLike(kw: string) | SlotIs(slot: nat) | StatusIs(status: string)
    | MethodIs(name: string) | CreatedFrom(since: string) | CreatedTo(until: string)

  /** The request argument a filter reads. */
  datatype FilterKind = KeywordArg | SlotArg | StatusArg | MethodArg | FromArg | ToArg

  datatype Query = Query(page: nat, perPage: nat, offset: nat, filters: seq<Filter>, orderBy: OrderBy, ascending: bool)

  /** A request argument after `wp_parse_args`: the given value or the default. */
  function Arg(args: map<string, PVal>, k: string, default: PVal): PVal {
    if k in args then args[k] else default
  }

  /** A filter argument read without defaults: a key not given reads as NULL. */
  function Given(m: map<string, PVal>, k: string): PVal {
    if k in m then m[k] else PNull
  }

  /** PHP `empty()` on a request value. */
  predicate EmptyP(v: PVal) {
    !ToBool(v)
  }

  /** The keyword text as given; a non-string keyword is modelled as "". */
  function Text(v: PVal): string {
    if v.PStr? then v.str else ""
  }

  function OrderByOf(v: PVal): (o: OrderBy)
    ensures v == PStr("id") ==> o == ById
    ensures v == PStr("paid_at") ==> o == ByPaidAt
    ensures v == PStr("total_price") ==> o == ByTotalPrice
    ensures !(v == PStr("id") || v == PStr("paid_at") || v == PStr("total_price")) ==> o == ByCreatedAt
  {
    if v == PStr("id") then ById
    else if v == PStr("paid_at") then ByPaidAt
    else if v == PStr("total_price") then ByTotalPrice
    else ByCreatedAt
  }

  /** The condition one argument adds: none exactly when the argument is
      empty, and the slot condition compares with the argument's `absint`
      even when that is 0; `clean` is `sanitize_text_field`. */
  function FilterOn(kind: FilterKind, v: PVal, clean: PVal -> string): (fs: seq<Filter>)
    ensures |fs| <= 1
    ensures EmptyP(v) <==> fs == []
    ensures forall f | f in fs :: (f.StatusIs? <==> kind == StatusArg)
    ensures forall f | f in fs :: (f.SlotIs? <==> kind == SlotArg)
    ensures forall f | f in fs && f.SlotIs? :: f.slot == Absint(ToInt(v))
  {
    if EmptyP(v) then []
    else match kind
      case KeywordArg => [KeywordLike(Text(v))]
      case SlotArg => [SlotIs(Absint(ToInt(v)))]
      case StatusArg => [StatusIs(clean(v))]
      case MethodArg => [MethodIs(clean(v))]
      case FromArg => [CreatedFrom(clean(v))]
      case ToArg => [CreatedTo(clean(v))]
  }

  /** The WHERE conditions of `query_orders`, in the order they are added. */
  function QueryFilters(args: map<string, PVal>, clean: PVal -> string): (fs: seq<Filter>)
    ensures forall f | f in fs && f.SlotIs? :: f.slot == Absint(ToInt(Arg(args, "slot_id", PInt(0))))
    ensures !EmptyP(Arg(args, "slot_id", PInt(0))) ==> SlotIs(Absint(ToInt(Arg(args, "slot_id", PInt(0))))) in fs
    ensures EmptyP(Arg(args, "pay_status", PStr(""))) ==> forall f | f in fs :: !f.StatusIs?
  {
    FilterOn(KeywordArg, Arg(args, "keyword", PStr("")), clean)
    + FilterOn(SlotArg, Arg(args, "slot_id", PInt(0)), clean)
    + FilterOn(StatusArg, Arg(args, "pay_status", PStr("")), clean)
    + FilterOn(MethodArg, Arg(args, "payment_method", PStr("")), clean)
    + FilterOn(FromArg, Arg(args, "date_from", PStr("")), clean)
    + FilterOn(ToArg, Arg(args, "date_to", PStr("")), clean)
  }

  /** `query_orders` argument handling: page and page size are at least 1,
      the offset is `(page - 1) * per_page`, an unknown order column falls
      back to `created_at`, and ascending order needs an explicit "ASC". */
  function QueryOf(args: map<string, PVal>, clean: PVal -> string): (q: Query)
    ensures q.page >= 1 && q.perPage >= 1
    ensures q.offset == (q.page - 1) * q.perPage
    ensures q.page == Absint(ToInt(Arg(args, "page", PInt(1)))) || q.page == 1
    ensures q.ascending <==> Arg(args, "order", PStr("DESC")).PStr? && ToUpper(Arg(args, "order", PStr("DESC")).str) == "ASC"
    ensures q.orderBy == OrderByOf(Arg(args, "orderby", PStr("created_at")))
    ensures q.filters == QueryFilters(args, clean)
  {
    var page := Max(1, Absint(ToInt(Arg(args, "page", PInt(1)))));
    var perPage := Max(1, Absint(ToInt(Arg(args, "per_page", PInt(20)))));
    var order := Arg(args, "order", PStr("DESC"));
    Query(page, perPage, (page - 1) * perPage, QueryFilters(args, clean),
          OrderByOf(Arg(args, "orderby", PStr("created_at"))),
          order.PStr? && ToUpper(order.str) == "ASC")
  }

  /** The WHERE conditions of `count_by_status`: the list filters without
      `pay_status`, read from the filters as given (no defaults). */
  function CountFilters(filters: map<string, PVal>, clean: PVal -> string): (fs: seq<Filter>)
    ensures forall f | f in fs :: !f.StatusIs?
  {
    FilterOn(KeywordArg, Given(filters, "keyword"), clean)
    + FilterOn(SlotArg, Given(filters, "slot_id"), clean)
    + FilterOn(MethodArg, Given(filters, "payment_method"), clean)
    + FilterOn(FromArg, Given(filters, "date_from"), clean)
    + FilterOn(ToArg, Given(filters, "date_to"), clean)
  }

  function DropStatus(fs: seq<Filter>): (r: seq<Filter>)
    ensures forall f :: f in r <==> f in fs && !f.StatusIs?
  {
    if fs == [] then []
    else if fs[0].StatusIs? then DropStatus(fs[1..])
    else [fs[0]] + DropStatus(fs[1..])
  }

  lemma {:induction false} DropStatusAppend(a: seq<Filter>, b: seq<Filter>)
    ensures DropStatus(a + b) == DropStatus(a) + DropStatus(b)
  {
    if a == [] {
      assert a + b == b;
    } else {
      assert (a + b)[0] == a[0];
      assert (a + b)[1..] == a[1..] + b;
      DropStatusAppend(a[1..], b);
    }
  }

  /** An empty default and a missing key give the same (absent) filter. */
  lemma DefaultIsMissing(args: map<string, PVal>, kind: FilterKind, k: string, default: PVal, clean: PVal -> string)
    requires EmptyP(default)
    ensures FilterOn(kind, Arg(args, k, default), clean) == FilterOn(kind, Given(args, k), clean)
  {
  }

  /** A slot argument that is not a number still filters, on slot 0, so the
      list comes back empty rather than unfiltered. */
  lemma NonNumericSlotFiltersOnZero(clean: PVal -> string)
    ensures FilterOn(SlotArg, PStr("abc"), clean) == [SlotIs(0)]
  {
    LettersReadAsZero();
    assert ToBool(PStr("abc"));
  }

  lemma LettersReadAsZero()
    ensures IntVal("abc") == 0
  {
    assert !IsNumericSpace("abc"[0]) && SkipNumericSpace("abc") == "abc";
    assert !IsDigit("abc"[0]) && DigitRun("abc") == 0;
  }

  lemma DropStatusSingle(fs: seq<Filter>)
    requires |fs| <= 1
    ensures (forall f | f in fs :: !f.StatusIs?) ==> DropStatus(fs) == fs
    ensures (forall f | f in fs :: f.StatusIs?) ==> DropStatus(fs) == []
  {
  }

  /** The list filters with the status filter taken out. */
  lemma DropStatusOfQuery(args: map<string, PVal>, clean: PVal -> string)
    ensures DropStatus(QueryFilters(args, clean)) ==
      FilterOn(KeywordArg, Arg(args, "keyword", PStr("")), clean)
      + FilterOn(SlotArg, Arg(args, "slot_id", PInt(0)), clean)
      + FilterOn(MethodArg, Arg(args, "payment_method", PStr("")), clean)
      + FilterOn(FromArg, Arg(args, "date_from", PStr("")), clean)
      + FilterOn(ToArg, Arg(args, "date_to", PStr("")), clean)
  {
    DropStatusOfSix(FilterOn(KeywordArg, Arg(args, "keyword", PStr("")), clean),
                    FilterOn(SlotArg, Arg(args, "slot_id", PInt(0)), clean),
                    FilterOn(StatusArg, Arg(args, "pay_status", PStr("")), clean),
                    FilterOn(MethodArg, Arg(args, "payment_method", PStr("")), clean),
                    FilterOn(FromArg, Arg(args, "date_from", PStr("")), clean),
                    FilterOn(ToArg, Arg(args, "date_to", PStr("")), clean));
  }

  /** Dropping the status condition from six conditions of at most one
      filter each, the third holding only status filters. */
  lemma DropStatusOfSix(a: seq<Filter>, b: seq<Filter>, c: seq<Filter>, d: seq<Filter>, e: seq<Filter>, f: seq<Filter>)
    requires |a| <= 1 && |b| <= 1 && |c| <= 1 && |d| <= 1 && |e| <= 1 && |f| <= 1
    requires forall x | x in a :: !x.StatusIs?
    requires forall x | x in b :: !x.StatusIs?
    requires forall x | x in c :: x.StatusIs?
    requires forall x | x in d :: !x.StatusIs?
    requires forall x | x in e :: !x.StatusIs?
    requires forall x | x in f :: !x.StatusIs?
    ensures DropStatus(a + b + c + d + e + f) == a + b + d + e + f
  {
    DropStatusSingle(a);
    DropStatusSingle(b);
    DropStatusSingle(c);
    DropStatusSingle(d);
    DropStatusSingle(e);
    DropStatusSingle(f);
    DropStatusAppend(a, b);
    DropStatusAppend(a + b, c);
    assert a + b + [] == a + b;
    DropStatusAppend(a + b + c, d);
    DropStatusAppend(a + b + c + d, e);
    DropStatusAppend(a + b + c + d + e, f);
  }



  /** The status counts above the list are taken over exactly the list's
      filters with the status filter removed, so the buckets add up to the
      list total with no status selected. */
  lemma CountMatchesQuery(args: map<string, PVal>, clean: PVal -> string)
    ensures CountFilters(args, clean) == DropStatus(QueryFilters(args, clean))
  {
    DropStatusOfQuery(args, clean);
    DefaultIsMissing(args, KeywordArg, "keyword", PStr(""), clean);
    DefaultIsMissing(args, SlotArg, "slot_id", PInt(0), clean);
    DefaultIsMissing(args, MethodArg, "payment_method", PStr(""), clean);
    DefaultIsMissing(args, FromArg, "date_from", PStr(""), clean);
    DefaultIsMissing(args, ToArg, "date_to", PStr(""), clean);
  }
}
