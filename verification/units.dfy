/** The ad-unit table: one row per purchasable position of a slot, and the
    status transitions the unit model applies to a row
    (available -> pending -> paid -> expired -> available). */
module Units {
  import opened Common

  datatype UnitStatus = Available | Pending | Paid | Expired

  /** The advertisement content columns of a unit row. */
  datatype ContentField =
    | CustomerName | WebsiteName | WebsiteUrl | ContactType | ContactValue
    | ColorKey | ImageId | ImageUrl | TextContent | TargetUrl

  const AllFields: set<ContentField> :=
    {CustomerName, WebsiteName, WebsiteUrl, ContactType, ContactValue,
     ColorKey, ImageId, ImageUrl, TextContent, TargetUrl}

  /** Every content column is one of the ten. */
  lemma InAllFields(f: ContentField)
    ensures f in AllFields
  {
    match f
    case CustomerName => case WebsiteName => case WebsiteUrl => case ContactType => case ContactValue =>
    case ColorKey => case ImageId => case ImageUrl => case TextContent => case TargetUrl =>
  }

  /** One row of the units table. A content field absent from `content` is
      NULL in the database. Times are Unix seconds except `updatedAt`, which
      is site-local wall time. */
  datatype Unit = Unit(
    slotId: int,
    key: int,
    status: UnitStatus,
    content: map<ContentField, Val>,
    orderId: Option<int>,
    orderNum: Option<string>,
    price: int,
    durationMonths: int,
    startsAt: Option<int>,
    endsAt: Option<int>,
    pendingExpiresAt: Option<int>,
    updatedAt: int)

  /** The units table keyed by its auto-increment id; `nextId` is the id the
      next insert receives. */
  datatype Table = Table(rows: map<int, Unit>, nextId: int)

  /** The whitelisted columns `set_paid` copies from its ad data, each only
      when present. */
  datatype AdData = AdData(
    content: map<ContentField, Val>,
    orderId: Option<int>,
    orderNum: Option<string>,
    price: Option<int>,
    durationMonths: Option<int>)

  predicate SameCell(u: Unit, v: Unit) {
    u.slotId == v.slotId && u.key == v.key
  }

  /** A row that is reserved or sold: nobody else may buy its position. */
  predicate Occupied(u: Unit) {
    u.status == Pending || u.status == Paid
  }

  ghost predicate IdsBelowNext(t: Table) {
    1 <= t.nextId && forall id | id in t.rows :: 1 <= id < t.nextId
  }

  /** A pending row carries its lock deadline; a paid row carries its term. */
  ghost predicate RowsWellFormed(t: Table) {
    forall id | id in t.rows ::
      (t.rows[id].status == Pending ==> t.rows[id].pendingExpiresAt.Some?) &&
      (t.rows[id].status == Paid ==> t.rows[id].startsAt.Some? && t.rows[id].endsAt.Some?)
  }

  /** No two rows share a (slot, key) position. */
  ghost predicate KeysUnique(t: Table) {
    forall a, b | a in t.rows && b in t.rows && a != b :: !SameCell(t.rows[a], t.rows[b])
  }

  /** The headline invariant: at most one row per position is reserved or sold. */
  ghost predicate AtMostOneOccupied(t: Table) {
    forall a, b | a in t.rows && b in t.rows && a != b && SameCell(t.rows[a], t.rows[b]) ::
      !(Occupied(t.rows[a]) && Occupied(t.rows[b]))
  }

  ghost predicate Valid(t: Table) {
    IdsBelowNext(t) && RowsWellFormed(t) && KeysUnique(t)
  }

  lemma UniqueKeysGiveOneOccupant(t: Table)
    requires KeysUnique(t)
    ensures AtMostOneOccupied(t)
  {
  }

  /** Replaces the row `id`, if it exists (an UPDATE by primary key). */
  function Put(t: Table, id: int, u: Unit): (r: Table)
    ensures r.nextId == t.nextId && r.rows.Keys == t.rows.Keys
    ensures id in t.rows ==> r.rows[id] == u
    ensures forall j | j in t.rows && j != id :: r.rows[j] == t.rows[j]
  {
    if id in t.rows then Table(t.rows[id := u], t.nextId) else t
  }

  /** Appends a row under the next auto-increment id. */
  function Insert(t: Table, u: Unit): (r: (Table, int))
    requires IdsBelowNext(t)
    ensures r.1 == t.nextId && r.1 !in t.rows && r.0.nextId > r.1
    ensures r.0.rows == t.rows[r.1 := u]
    ensures IdsBelowNext(r.0)
  {
    (Table(t.rows[t.nextId := u], t.nextId + 1), t.nextId)
  }

  /** `get_by_slot_and_key`: the row at a position. With several rows at one
      position the lowest id is taken, the order of the (slot, key) index. */
  function Find(t: Table, slot: int, key: int): (r: Option<int>)
    ensures r.Some? ==> r.value in t.rows && t.rows[r.value].slotId == slot && t.rows[r.value].key == key
    ensures IdsBelowNext(t) && r.Some? ==>
      forall j | j in t.rows && j < r.value :: !(t.rows[j].slotId == slot && t.rows[j].key == key)
    ensures IdsBelowNext(t) && r.None? ==> forall j | j in t.rows :: !(t.rows[j].slotId == slot && t.rows[j].key == key)
  {
    FindFrom(t, slot, key, 1)
  }

  function FindFrom(t: Table, slot: int, key: int, id: int): (r: Option<int>)
    ensures r.Some? ==> r.value in t.rows && id <= r.value
    ensures r.Some? ==> t.rows[r.value].slotId == slot && t.rows[r.value].key == key
    ensures r.Some? ==> forall j | j in t.rows && id <= j < r.value :: !(t.rows[j].slotId == slot && t.rows[j].key == key)
    ensures r.None? ==> forall j | j in t.rows && id <= j < t.nextId :: !(t.rows[j].slotId == slot && t.rows[j].key == key)
    decreases t.nextId - id
  {
    if id >= t.nextId then None
    else if id in t.rows && t.rows[id].slotId == slot && t.rows[id].key == key then Some(id)
    else FindFrom(t, slot, key, id + 1)
  }

  /** `set_pending` may re-lock a pending row only when its deadline is set,
      non-zero and already past. */
  predicate Relockable(u: Unit, now: int) {
    u.status == Available ||
    (u.status == Pending && u.pendingExpiresAt.Some? &&
     u.pendingExpiresAt.value != 0 && u.pendingExpiresAt.value < now)
  }

  /** `set_pending`: lock the row at a position for `minutes`. `None` is the
      refusal: no row, a paid or expired row, or a lock still running. */
  function SetPending(t: Table, slot: int, key: int, minutes: int, clock: Clock): (r: Option<Table>)
    ensures r.Some? <==> Find(t, slot, key).Some? && Relockable(t.rows[Find(t, slot, key).value], clock.unix)
    ensures r.Some? ==>
      var id := Find(t, slot, key).value;
      r.value.nextId == t.nextId && r.value.rows.Keys == t.rows.Keys &&
      (forall j | j in t.rows && j != id :: r.value.rows[j] == t.rows[j]) &&
      r.value.rows[id].status == Pending &&
      r.value.rows[id].pendingExpiresAt == Some(clock.unix + minutes * 60) &&
      r.value.rows[id] == t.rows[id].(status := Pending,
                                      pendingExpiresAt := r.value.rows[id].pendingExpiresAt,
                                      updatedAt := clock.local)
  {
    match Find(t, slot, key)
    case None => None
    case Some(id) =>
      if !Relockable(t.rows[id], clock.unix) then None
      else Some(Put(t, id, t.rows[id].(status := Pending,
                                        pendingExpiresAt := Some(clock.unix + minutes * 60),
                                        updatedAt := clock.local)))
  }

  /** A field after a conditional copy: replaced when the patch has it. */
  function Patch<T>(current: T, patch: Option<T>): T {
    if patch.Some? then patch.value else current
  }

  /** `set_paid`: sell the row `id` for `months` thirty-day months starting
      now, copying only the ad-data columns that are present. There is no
      status check, and a missing id leaves the table as it is. */
  function SetPaid(t: Table, id: int, ad: AdData, months: int, clock: Clock): (r: Table)
    ensures r.nextId == t.nextId && r.rows.Keys == t.rows.Keys
    ensures forall j | j in t.rows && j != id :: r.rows[j] == t.rows[j]
    ensures id in t.rows ==>
      var u, v := t.rows[id], r.rows[id];
      SameCell(u, v) && v.status == Paid && v.pendingExpiresAt.None? &&
      v.startsAt == Some(clock.unix) && v.endsAt == Some(clock.unix + months * MonthSeconds) &&
      v.endsAt.value - v.startsAt.value == months * 30 * DaySeconds &&
      (forall f :: f in ad.content ==> f in v.content && v.content[f] == ad.content[f]) &&
      (forall f | f !in ad.content :: (f in v.content <==> f in u.content)) &&
      (forall f | f !in ad.content && f in u.content :: v.content[f] == u.content[f]) &&
      (ad.orderId.Some? ==> v.orderId == ad.orderId) && (ad.orderId.None? ==> v.orderId == u.orderId) &&
      (ad.orderNum.Some? ==> v.orderNum == ad.orderNum) && (ad.orderNum.None? ==> v.orderNum == u.orderNum) &&
      (ad.price.Some? ==> v.price == ad.price.value) && (ad.price.None? ==> v.price == u.price) &&
      (ad.durationMonths.Some? ==> v.durationMonths == ad.durationMonths.value) &&
      (ad.durationMonths.None? ==> v.durationMonths == u.durationMonths)
  {
    if id !in t.rows then t
    else
      var u := t.rows[id];
      Put(t, id, u.(status := Paid,
                    startsAt := Some(clock.unix),
                    endsAt := Some(clock.unix + months * MonthSeconds),
                    pendingExpiresAt := None,
                    updatedAt := clock.local,
                    content := u.content + ad.content,
                    orderId := if ad.orderId.Some? then ad.orderId else u.orderId,
                    orderNum := if ad.orderNum.Some? then ad.orderNum else u.orderNum,
                    price := Patch(u.price, ad.price),
                    durationMonths := Patch(u.durationMonths, ad.durationMonths)))
  }

  /** `set_expired`: only the status (and the modification time) changes. */
  function SetExpired(t: Table, id: int, clock: Clock): (r: Table)
    ensures r.nextId == t.nextId && r.rows.Keys == t.rows.Keys
    ensures forall j | j in t.rows && j != id :: r.rows[j] == t.rows[j]
    ensures id in t.rows ==> (r.rows[id].status == Expired &&
      r.rows[id].(status := t.rows[id].status, updatedAt := t.rows[id].updatedAt) == t.rows[id])
  {
    if id in t.rows then Put(t, id, t.rows[id].(status := Expired, updatedAt := clock.local)) else t
  }

  /** A row reset to available with its content and term cleared. */
  function Cleared(u: Unit, clock: Clock): (v: Unit)
    ensures SameCell(u, v) && v.status == Available && v.content == map[]
    ensures v.orderId.None? && v.orderNum.None? && v.startsAt.None? && v.endsAt.None?
    ensures v.pendingExpiresAt.None? && v.price == 0 && v.durationMonths == 0
  {
    u.(status := Available, pendingExpiresAt := None, updatedAt := clock.local,
       content := map[], orderId := None, orderNum := None,
       startsAt := None, endsAt := None, price := 0, durationMonths := 0)
  }

  /** `set_available`: release the row `id`; with `clear` its content, order
      link, term, price and duration are reset as well. */
  function SetAvailable(t: Table, id: int, clear: bool, clock: Clock): (r: Table)
    ensures r.nextId == t.nextId && r.rows.Keys == t.rows.Keys
    ensures forall j | j in t.rows && j != id :: r.rows[j] == t.rows[j]
    ensures id in t.rows ==> (SameCell(t.rows[id], r.rows[id]) &&
      r.rows[id].status == Available && r.rows[id].pendingExpiresAt.None?)
    ensures id in t.rows && clear ==> r.rows[id] == Cleared(t.rows[id], clock)
    ensures id in t.rows && !clear ==>
      r.rows[id].(status := t.rows[id].status, pendingExpiresAt := t.rows[id].pendingExpiresAt,
                  updatedAt := t.rows[id].updatedAt) == t.rows[id]
  {
    if id !in t.rows then t
    else if clear then Put(t, id, Cleared(t.rows[id], clock))
    else Put(t, id, t.rows[id].(status := Available, pendingExpiresAt := None, updatedAt := clock.local))
  }

  /** The rows `cleanup_expired_pending` selects: pending with a deadline
      strictly in the past. */
  predicate PendingLapsed(u: Unit, now: int) {
    u.status == Pending && u.pendingExpiresAt.Some? && u.pendingExpiresAt.value < now
  }

  function LapsedIds(t: Table, now: int): (s: set<int>)
    ensures forall id :: id in s <==> id in t.rows && PendingLapsed(t.rows[id], now)
  {
    set id | id in t.rows && PendingLapsed(t.rows[id], now)
  }

  /** The reference outcome of the cleanup: every lapsed pending row cleared,
      every other row untouched. */
  function CleanedTable(t: Table, clock: Clock): (r: Table)
    ensures r.nextId == t.nextId && r.rows.Keys == t.rows.Keys
    ensures forall id | id in t.rows && PendingLapsed(t.rows[id], clock.unix) :: r.rows[id] == Cleared(t.rows[id], clock)
    ensures forall id | id in t.rows && !PendingLapsed(t.rows[id], clock.unix) :: r.rows[id] == t.rows[id]
    ensures forall id | id in r.rows :: !PendingLapsed(r.rows[id], clock.unix)
  {
    Table(map id | id in t.rows :: if PendingLapsed(t.rows[id], clock.unix) then Cleared(t.rows[id], clock) else t.rows[id],
          t.nextId)
  }

  /** The table once the rows in `done` have been released and cleared. */
  function ClearedOn(t: Table, done: set<int>, clock: Clock): (r: Table)
    ensures r.nextId == t.nextId && r.rows.Keys == t.rows.Keys
  {
    Table(map id | id in t.rows :: if id in done then Cleared(t.rows[id], clock) else t.rows[id], t.nextId)
  }

  lemma ClearOneMore(t: Table, done: set<int>, id: int, clock: Clock)
    requires id in t.rows && id !in done
    ensures SetAvailable(ClearedOn(t, done, clock), id, true, clock) == ClearedOn(t, done + {id}, clock)
    ensures |done + {id}| == |done| + 1
  {
    var a, b := SetAvailable(ClearedOn(t, done, clock), id, true, clock), ClearedOn(t, done + {id}, clock);
    assert a.rows == b.rows;
  }

  lemma ClearedAllLapsed(t: Table, clock: Clock)
    ensures ClearedOn(t, LapsedIds(t, clock.unix), clock) == CleanedTable(t, clock)
  {
    assert ClearedOn(t, LapsedIds(t, clock.unix), clock).rows == CleanedTable(t, clock).rows;
  }

  /** The lapsed pending rows whose id is below `i`. */
  function LapsedBelow(t: Table, now: int, i: int): (s: set<int>)
    ensures forall id :: id in s <==> id in t.rows && id < i && PendingLapsed(t.rows[id], now)
  {
    set id | id in t.rows && id < i && PendingLapsed(t.rows[id], now)
  }

  lemma ScanStep(t: Table, clock: Clock, i: int)
    ensures i in t.rows && PendingLapsed(t.rows[i], clock.unix) ==>
      |LapsedBelow(t, clock.unix, i + 1)| == |LapsedBelow(t, clock.unix, i)| + 1 &&
      SetAvailable(ClearedOn(t, LapsedBelow(t, clock.unix, i), clock), i, true, clock)
        == ClearedOn(t, LapsedBelow(t, clock.unix, i + 1), clock)
    ensures !(i in t.rows && PendingLapsed(t.rows[i], clock.unix)) ==>
      LapsedBelow(t, clock.unix, i + 1) == LapsedBelow(t, clock.unix, i)
  {
    var before := LapsedBelow(t, clock.unix, i);
    if i in t.rows && PendingLapsed(t.rows[i], clock.unix) {
      assert LapsedBelow(t, clock.unix, i + 1) == before + {i};
      ClearOneMore(t, before, i, clock);
    } else {
      assert LapsedBelow(t, clock.unix, i + 1) == before;
    }
  }

  /** `cleanup_expired_pending`: select the lapsed pending rows (in id order),
      release each with its content cleared, and count the releases. */
  method CleanupExpiredPending(t: Table, clock: Clock) returns (r: Table, count: nat)
    requires IdsBelowNext(t)
    ensures r == CleanedTable(t, clock)
    ensures count == |LapsedIds(t, clock.unix)|
  {
    var i := 1;
    r, count := t, 0;
    assert LapsedBelow(t, clock.unix, i) == {};
    assert r.rows == ClearedOn(t, {}, clock).rows;
    while i < t.nextId
      invariant 1 <= i <= t.nextId
      invariant count == |LapsedBelow(t, clock.unix, i)|
      invariant r == ClearedOn(t, LapsedBelow(t, clock.unix, i), clock)
    {
      ScanStep(t, clock, i);
      if i in t.rows && PendingLapsed(t.rows[i], clock.unix) {
        r := SetAvailable(r, i, true, clock);
        count := count + 1;
      }
      i := i + 1;
    }
    assert LapsedBelow(t, clock.unix, i) == LapsedIds(t, clock.unix);
    ClearedAllLapsed(t, clock);
  }

  /** A second cleanup at the same instant finds nothing to release. */
  lemma CleanupIdempotent(t: Table, clock: Clock)
    ensures CleanedTable(CleanedTable(t, clock), clock) == CleanedTable(t, clock)
    ensures LapsedIds(CleanedTable(t, clock), clock.unix) == {}
  {
    var c := CleanedTable(t, clock);
    assert CleanedTable(c, clock).rows == c.rows;
  }

  /** `Find` reads only where the rows sit, not what they hold. */
  lemma {:induction false} FindFromSameCells(t: Table, t1: Table, slot: int, key: int, id: int)
    requires t1.nextId == t.nextId && t1.rows.Keys == t.rows.Keys
    requires forall j | j in t.rows :: SameCell(t.rows[j], t1.rows[j])
    ensures FindFrom(t1, slot, key, id) == FindFrom(t, slot, key, id)
    decreases t.nextId - id
  {
    if id < t.nextId {
      FindFromSameCells(t, t1, slot, key, id + 1);
    }
  }

  lemma FindSameCells(t: Table, t1: Table, slot: int, key: int)
    requires t1.nextId == t.nextId && t1.rows.Keys == t.rows.Keys
    requires forall j | j in t.rows :: SameCell(t.rows[j], t1.rows[j])
    ensures Find(t1, slot, key) == Find(t, slot, key)
  {
    FindFromSameCells(t, t1, slot, key, 1);
  }

  /** A row rewritten in place at its own position, well formed, keeps the
      table valid. */
  lemma PutKeepsValid(t: Table, id: int, u: Unit)
    requires Valid(t)
    requires id in t.rows ==> SameCell(t.rows[id], u)
    requires u.status == Pending ==> u.pendingExpiresAt.Some?
    requires u.status == Paid ==> u.startsAt.Some? && u.endsAt.Some?
    ensures Valid(Put(t, id, u)) && AtMostOneOccupied(Put(t, id, u))
  {
    var r := Put(t, id, u);
    assert forall j | j in r.rows :: SameCell(r.rows[j], t.rows[j]);
    UniqueKeysGiveOneOccupant(r);
  }

  /** Each single-row transition of the unit model keeps the table valid,
      so at most one row per position is ever reserved or sold. */
  lemma TransitionsKeepValid(t: Table, id: int, ad: AdData, months: int, clear: bool,
                             slot: int, key: int, minutes: int, clock: Clock)
    requires Valid(t)
    ensures Valid(SetPaid(t, id, ad, months, clock)) && AtMostOneOccupied(SetPaid(t, id, ad, months, clock))
    ensures Valid(SetExpired(t, id, clock)) && AtMostOneOccupied(SetExpired(t, id, clock))
    ensures Valid(SetAvailable(t, id, clear, clock)) && AtMostOneOccupied(SetAvailable(t, id, clear, clock))
    ensures SetPending(t, slot, key, minutes, clock).Some? ==>
      Valid(SetPending(t, slot, key, minutes, clock).value) &&
      AtMostOneOccupied(SetPending(t, slot, key, minutes, clock).value)
  {
    if id in t.rows {
      PutKeepsValid(t, id, SetPaid(t, id, ad, months, clock).rows[id]);
      PutKeepsValid(t, id, SetExpired(t, id, clock).rows[id]);
      PutKeepsValid(t, id, SetAvailable(t, id, clear, clock).rows[id]);
    }
    var p := SetPending(t, slot, key, minutes, clock);
    if p.Some? {
      var j := Find(t, slot, key).value;
      PutKeepsValid(t, j, p.value.rows[j]);
    }
  }

  /** The cleanup keeps the table valid. */
  lemma CleanupKeepsValid(t: Table, clock: Clock)
    requires Valid(t)
    ensures Valid(CleanedTable(t, clock)) && AtMostOneOccupied(CleanedTable(t, clock))
  {
    var r := CleanedTable(t, clock);
    assert forall j | j in r.rows :: SameCell(r.rows[j], t.rows[j]);
    UniqueKeysGiveOneOccupant(r);
  }
}
