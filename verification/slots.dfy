/** The unit-table side of the slot model: creating a slot's units, resizing
    them when the layout's `max_items` changes, deleting a slot's units, and
    the per-slot render listing. */
module Slots {
  import opened Common
  import opened Units

  /** A freshly inserted unit row: available, no content, no term. */
  function Blank(slot: int, key: int, clock: Clock): (u: Unit)
    ensures u.slotId == slot && u.key == key && u.status == Available
    ensures u.content == map[] && u.pendingExpiresAt.None? && u.endsAt.None?
  {
    Unit(slot, key, Available, map[], None, None, 0, 0, None, None, None, clock.local)
  }

  /** The ids of the rows of one slot. */
  function SlotIds(t: Table, slot: int): (s: set<int>)
    ensures forall id :: id in s <==> id in t.rows && t.rows[id].slotId == slot
  {
    set id | id in t.rows && t.rows[id].slotId == slot
  }

  /** Inserts one blank row per key `from .. max-1`, in key order (the loop
      of `init_units`, and the growing branch of `adjust_units`). */
  function InsertKeys(t: Table, slot: int, from: int, max: int, clock: Clock): (r: Table)
    requires IdsBelowNext(t)
    ensures IdsBelowNext(r)
    ensures r.nextId == t.nextId + Max(0, max - from)
    ensures forall id | id in t.rows :: id in r.rows && r.rows[id] == t.rows[id]
    ensures forall id | id in r.rows && id !in t.rows ::
      t.nextId <= id && r.rows[id] == Blank(slot, from + (id - t.nextId), clock)
    ensures forall id | t.nextId <= id < r.nextId :: id in r.rows
    decreases max - from
  {
    if from >= max then t
    else InsertKeys(Insert(t, Blank(slot, from, clock)).0, slot, from + 1, max, clock)
  }

  /** Inserting keys none of the slot's rows already has keeps keys unique. */
  lemma InsertKeysKeepsValid(t: Table, slot: int, from: int, max: int, clock: Clock)
    requires Valid(t)
    requires forall id | id in t.rows && t.rows[id].slotId == slot :: t.rows[id].key < from || t.rows[id].key >= max
    ensures Valid(InsertKeys(t, slot, from, max, clock))
  {
    var r := InsertKeys(t, slot, from, max, clock);
    forall a, b | a in r.rows && b in r.rows && a != b
      ensures !SameCell(r.rows[a], r.rows[b])
    {
      if a !in t.rows && b !in t.rows {
        assert r.rows[a].key - r.rows[b].key == a - b;
      }
    }
  }

  lemma InsertKeysFinds(t: Table, slot: int, from: int, max: int, clock: Clock)
    requires IdsBelowNext(t)
    ensures forall k | from <= k < max :: Find(InsertKeys(t, slot, from, max, clock), slot, k).Some?
  {
    var r := InsertKeys(t, slot, from, max, clock);
    forall k | from <= k < max
      ensures Find(r, slot, k).Some?
    {
      var id := t.nextId + (k - from);
      assert id in r.rows && r.rows[id].slotId == slot && r.rows[id].key == k;
    }
  }

  /** `create` then `init_units`: a new slot gets one available row for each
      key `0 .. max_items-1`, and nothing else in the table changes. */
  function CreateUnits(t: Table, slot: int, maxItems: int, clock: Clock): (r: Table)
    requires IdsBelowNext(t)
    ensures IdsBelowNext(r)
    ensures forall id | id in t.rows :: id in r.rows && r.rows[id] == t.rows[id]
    ensures forall id | id in r.rows && id !in t.rows ::
      r.rows[id].slotId == slot && r.rows[id].status == Available && 0 <= r.rows[id].key < maxItems
    ensures forall k | 0 <= k < maxItems :: Find(r, slot, k).Some?
  {
    InsertKeysFinds(t, slot, 0, maxItems, clock);
    InsertKeys(t, slot, 0, maxItems, clock)
  }

  /** Creating the units of a slot that has none keeps keys unique. */
  lemma CreateUnitsKeepsValid(t: Table, slot: int, maxItems: int, clock: Clock)
    requires Valid(t) && SlotIds(t, slot) == {}
    ensures Valid(CreateUnits(t, slot, maxItems, clock))
  {
    InsertKeysKeepsValid(t, slot, 0, maxItems, clock);
  }

  /** The rows the shrinking branch of `adjust_units` may delete. */
  predicate Removable(u: Unit, slot: int, max: int) {
    u.slotId == slot && u.status == Available && u.key >= max
  }

  /** `ORDER BY unit_key DESC`; among equal keys the index yields the
      higher id first. */
  predicate RanksAbove(u: Unit, a: int, v: Unit, b: int) {
    u.key > v.key || (u.key == v.key && a > b)
  }

  /** The removable row that `ORDER BY unit_key DESC` yields first, scanning
      ids from `i` with the best so far in `acc`. */
  function BestFrom(t: Table, slot: int, max: int, i: int, acc: Option<int>): (r: Option<int>)
    requires acc.Some? ==> acc.value in t.rows && Removable(t.rows[acc.value], slot, max)
    ensures r.Some? ==> r.value in t.rows && Removable(t.rows[r.value], slot, max)
    ensures acc.Some? ==> r.Some? && (r.value == acc.value || RanksAbove(t.rows[r.value], r.value, t.rows[acc.value], acc.value))
    ensures forall j | i <= j < t.nextId && j in t.rows && Removable(t.rows[j], slot, max) ::
      r.Some? && (r.value == j || RanksAbove(t.rows[r.value], r.value, t.rows[j], j))
    decreases t.nextId - i
  {
    if i >= t.nextId then acc
    else if i in t.rows && Removable(t.rows[i], slot, max) &&
            (acc.None? || RanksAbove(t.rows[i], i, t.rows[acc.value], acc.value)) then
      BestFrom(t, slot, max, i + 1, Some(i))
    else BestFrom(t, slot, max, i + 1, acc)
  }

  /** Deletes up to `n` removable rows, best ranked first
      (`DELETE … ORDER BY unit_key DESC LIMIT n`); the second component is
      the set of deleted ids. At most `n` rows go, and fewer only when no
      removable row is left. */
  function DeleteTop(t: Table, slot: int, max: int, n: int): (r: (Table, set<int>))
    requires IdsBelowNext(t)
    ensures IdsBelowNext(r.0) && r.0.nextId == t.nextId
    ensures r.1 <= t.rows.Keys && r.0.rows.Keys == t.rows.Keys - r.1
    ensures forall id | id in r.0.rows :: r.0.rows[id] == t.rows[id]
    ensures forall id | id in r.1 :: Removable(t.rows[id], slot, max)
    ensures |r.1| <= Max(n, 0)
    ensures |r.1| < n ==> NoneRemovable(r.0, slot, max)
    decreases Max(n, 0)
  {
    if n <= 0 then (t, {})
    else
      match BestFrom(t, slot, max, 1, None)
      case None =>
        assert NoneRemovable(t, slot, max) by {
          forall id | id in t.rows ensures !Removable(t.rows[id], slot, max) {
            assert 1 <= id < t.nextId;
          }
        }
        (t, {})
      case Some(b) =>
        var rest := DeleteTop(Table(t.rows - {b}, t.nextId), slot, max, n - 1);
        assert b !in rest.1;
        (rest.0, rest.1 + {b})
  }

  predicate NoneRemovable(t: Table, slot: int, max: int) {
    forall id | id in t.rows :: !Removable(t.rows[id], slot, max)
  }

  /** The ORDER BY of that delete: every deleted row ranks above every
      removable row that stays. */
  lemma {:induction false} DeleteTopTakesBest(t: Table, slot: int, max: int, n: int)
    requires IdsBelowNext(t)
    ensures TookBest(t, DeleteTop(t, slot, max, n).0, slot, max)
    decreases Max(n, 0)
  {
    if n > 0 {
      var best := BestFrom(t, slot, max, 1, None);
      if best.Some? {
        var t1 := Table(t.rows - {best.value}, t.nextId);
        DeleteTopTakesBest(t1, slot, max, n - 1);
        var r := DeleteTop(t1, slot, max, n - 1).0;
        assert TookBest(t1, r, slot, max);
        DeleteTopUnfold(t, slot, max, n);
        forall id | id in r.rows
          ensures id in t1.rows && r.rows[id] == t1.rows[id]
        {
          assert id in r.rows.Keys;
        }
        TakesBestStep(t, t1, slot, max, best.value, r);
      }
    }
  }

  /** One unfolding of `DeleteTop`: with nothing removable it deletes
      nothing, otherwise it deletes the best row and recurses. */
  lemma DeleteTopUnfold(t: Table, slot: int, max: int, n: int)
    requires IdsBelowNext(t)
    ensures var best := BestFrom(t, slot, max, 1, None);
      DeleteTop(t, slot, max, n).0 ==
        if n <= 0 || best.None? then t
        else DeleteTop(Table(t.rows - {best.value}, t.nextId), slot, max, n - 1).0
  {
  }

  /** Every row of `t` missing from `r` ranks above every removable row
      `r` keeps. */
  predicate TookBest(t: Table, r: Table, slot: int, max: int) {
    forall a, b | a in t.rows && a !in r.rows && b in r.rows && b in t.rows && Removable(t.rows[b], slot, max) ::
      RanksAbove(t.rows[a], a, t.rows[b], b)
  }

  /** One step of that induction: if what stays of `t` minus `best` ranks
      below what went, adding `best` to the deleted rows keeps it so. */
  lemma TakesBestStep(t: Table, t1: Table, slot: int, max: int, best: int, r: Table)
    requires IdsBelowNext(t) && BestFrom(t, slot, max, 1, None) == Some(best)
    requires t1 == Table(t.rows - {best}, t.nextId)
    requires forall id | id in r.rows :: id in t1.rows && r.rows[id] == t1.rows[id]
    requires TookBest(t1, r, slot, max)
    ensures TookBest(t, r, slot, max)
  {
    forall a, b | a in t.rows && a !in r.rows && b in r.rows && b in t.rows && Removable(t.rows[b], slot, max)
      ensures RanksAbove(t.rows[a], a, t.rows[b], b)
    {
      if a == best {
        BestRanksFirst(t, slot, max, best, b);
      } else {
        assert a in t1.rows && t1.rows[a] == t.rows[a] && t1.rows[b] == t.rows[b];
      }
    }
  }

  /** The row `BestFrom` picks ranks above every other removable row. */
  lemma BestRanksFirst(t: Table, slot: int, max: int, best: int, b: int)
    requires IdsBelowNext(t) && BestFrom(t, slot, max, 1, None) == Some(best)
    requires b in t.rows && b != best && Removable(t.rows[b], slot, max)
    ensures RanksAbove(t.rows[best], best, t.rows[b], b)
  {
    assert 1 <= b < t.nextId;
  }

  /** `adjust_units` AS WRITTEN: it grows from the current row COUNT, so a
      slot whose shrink kept a high paid key re-inserts that key. */
  function AdjustUnitsAsWritten(t: Table, slot: int, maxItems: int, clock: Clock): (r: Table)
    requires IdsBelowNext(t)
    ensures IdsBelowNext(r)
    ensures forall id | id in r.rows && id in t.rows :: r.rows[id] == t.rows[id]
    ensures forall id | id in r.rows && id !in t.rows :: r.rows[id].slotId == slot && r.rows[id].status == Available
    ensures forall id | id in t.rows && id !in r.rows :: Removable(t.rows[id], slot, maxItems)
  {
    var count := |SlotIds(t, slot)|;
    if maxItems > count then InsertKeys(t, slot, count, maxItems, clock)
    else if maxItems < count then DeleteTop(t, slot, maxItems, count - maxItems).0
    else t
  }

  /** Even as written, resizing only inserts available rows and deletes
      available rows, so it never puts two occupied rows on one position. */
  lemma AdjustUnitsAsWrittenKeepsOneOccupant(t: Table, slot: int, maxItems: int, clock: Clock)
    requires IdsBelowNext(t) && AtMostOneOccupied(t)
    ensures AtMostOneOccupied(AdjustUnitsAsWritten(t, slot, maxItems, clock))
  {
  }

  /** A slot with keys 0, 1 available and key 2 paid. */
  function ShrinkGrowTable(clock: Clock): Table {
    Table(map[1 := Blank(7, 0, clock), 2 := Blank(7, 1, clock),
              3 := Blank(7, 2, clock).(status := Paid, startsAt := Some(0), endsAt := Some(MonthSeconds))],
          4)
  }

  /** Shrinking that slot to one unit deletes only key 1: key 2 is paid. */
  lemma ShrinkKeepsPaidKey(clock: Clock)
    ensures var t0 := ShrinkGrowTable(clock);
            AdjustUnitsAsWritten(t0, 7, 1, clock) == Table(t0.rows - {2}, 4)
  {
    var t0 := ShrinkGrowTable(clock);
    assert SlotIds(t0, 7) == {1, 2, 3};
    assert BestFrom(t0, 7, 1, 1, None) == Some(2);
    var t1 := Table(t0.rows - {2}, 4);
    assert BestFrom(t1, 7, 1, 1, None) == None;
    assert DeleteTop(t1, 7, 1, 1) == (t1, {});
  }

  /** The counterexample: after that shrink, growing the slot back to three
      inserts a second row for key 2, because the count is 2. */
  lemma AdjustUnitsAsWrittenDuplicatesKey(clock: Clock)
    ensures var t0 := ShrinkGrowTable(clock);
            var t2 := AdjustUnitsAsWritten(AdjustUnitsAsWritten(t0, 7, 1, clock), 7, 3, clock);
            3 in t2.rows && 4 in t2.rows && SameCell(t2.rows[3], t2.rows[4]) && !KeysUnique(t2)
  {
    var t0 := ShrinkGrowTable(clock);
    ShrinkKeepsPaidKey(clock);
    var t1 := Table(t0.rows - {2}, 4);
    assert SlotIds(t1, 7) == {1, 3};
    var t2 := AdjustUnitsAsWritten(t1, 7, 3, clock);
    assert t2 == InsertKeys(t1, 7, 2, 3, clock);
    assert 4 in t2.rows && t2.rows[4] == Blank(7, 2, clock);
  }

  /** Inserting an available row on a position no row holds keeps the
      table valid and makes the position found. */
  lemma InsertFresh(t: Table, u: Unit)
    requires IdsBelowNext(t) && Find(t, u.slotId, u.key).None? && u.status == Available
    ensures Valid(t) ==> Valid(Insert(t, u).0)
    ensures Find(Insert(t, u).0, u.slotId, u.key).Some?
  {
    var r := Insert(t, u).0;
    assert t.nextId in r.rows && SameCell(r.rows[t.nextId], u);
  }

  /** Inserts a blank row for key `k` unless the slot already has one. */
  function FillOne(t: Table, slot: int, k: int, clock: Clock): (r: Table)
    requires IdsBelowNext(t)
    ensures IdsBelowNext(r) && r.nextId >= t.nextId
    ensures forall id | id in t.rows :: id in r.rows && r.rows[id] == t.rows[id]
    ensures forall id | id in r.rows && id !in t.rows :: r.rows[id] == Blank(slot, k, clock) && Find(t, slot, k).None?
    ensures Find(r, slot, k).Some?
    ensures Valid(t) ==> Valid(r)
  {
    if Find(t, slot, k).Some? then t
    else
      InsertFresh(t, Blank(slot, k, clock));
      Insert(t, Blank(slot, k, clock)).0
  }

  /** Inserts a blank row for each key `from .. max-1` the slot lacks. */
  function FillKeys(t: Table, slot: int, from: int, max: int, clock: Clock): (r: Table)
    requires IdsBelowNext(t)
    ensures IdsBelowNext(r) && r.nextId >= t.nextId
    ensures forall id | id in t.rows :: id in r.rows && r.rows[id] == t.rows[id]
    ensures forall id | id in r.rows && id !in t.rows ::
      r.rows[id] == Blank(slot, r.rows[id].key, clock) && from <= r.rows[id].key < max &&
      Find(t, slot, r.rows[id].key).None?
    ensures forall k | from <= k < max :: Find(r, slot, k).Some?
    ensures Valid(t) ==> Valid(r)
    decreases max - from
  {
    if from >= max then t
    else
      var t1 := FillOne(t, slot, from, clock);
      FindKeepsFinding(t, t1, slot);
      var r := FillKeys(t1, slot, from + 1, max, clock);
      FindKeepsFinding(t1, r, slot);
      r
  }

  /** A table that only gains rows keeps every position it had. */
  lemma FindKeepsFinding(t: Table, r: Table, slot: int)
    requires IdsBelowNext(t) && IdsBelowNext(r)
    requires forall id | id in t.rows :: id in r.rows && r.rows[id] == t.rows[id]
    ensures forall k | Find(t, slot, k).Some? :: Find(r, slot, k).Some?
    ensures forall k | Find(r, slot, k).None? :: Find(t, slot, k).None?
  {
    forall k | Find(t, slot, k).Some?
      ensures Find(r, slot, k).Some?
    {
      var id := Find(t, slot, k).value;
      assert id in r.rows && r.rows[id].slotId == slot && r.rows[id].key == k;
    }
  }

  /** `adjust_units` as evidently intended: growing inserts exactly the keys
      `0 .. max_items-1` the slot lacks, so keys stay unique. */
  function AdjustUnits(t: Table, slot: int, maxItems: int, clock: Clock): (r: Table)
    requires IdsBelowNext(t)
    ensures IdsBelowNext(r)
    ensures forall id | id in r.rows && id in t.rows :: r.rows[id] == t.rows[id]
    ensures forall id | id in r.rows && id !in t.rows :: r.rows[id].slotId == slot && r.rows[id].status == Available
    ensures forall id | id in t.rows && id !in r.rows :: Removable(t.rows[id], slot, maxItems)
    ensures maxItems > |SlotIds(t, slot)| ==> forall k | 0 <= k < maxItems :: Find(r, slot, k).Some?
  {
    var count := |SlotIds(t, slot)|;
    if maxItems > count then FillKeys(t, slot, 0, maxItems, clock)
    else if maxItems < count then DeleteTop(t, slot, maxItems, count - maxItems).0
    else t
  }

  /** Resizing as intended keeps keys unique, and so at most one occupied
      row per position. */
  lemma AdjustUnitsKeepsValid(t: Table, slot: int, maxItems: int, clock: Clock)
    requires Valid(t)
    ensures Valid(AdjustUnits(t, slot, maxItems, clock))
    ensures AtMostOneOccupied(AdjustUnits(t, slot, maxItems, clock))
  {
    var count := |SlotIds(t, slot)|;
    if maxItems > count {
      assert Valid(FillKeys(t, slot, 0, maxItems, clock));
    }
  }

  /** The number of units `create` provisions: the layout's `max_items`
      read with `intval`, or 3 when the layout does not set it. */
  function CreateMaxItems(layout: map<string, PVal>): int {
    if Isset(layout, "max_items") then ToInt(layout["max_items"]) else 3
  }

  /** `create`: the new slot's units follow its layout, three when the
      layout names no size. */
  function NewSlotUnits(t: Table, slot: int, layout: map<string, PVal>, clock: Clock): (r: Table)
    requires IdsBelowNext(t)
    ensures IdsBelowNext(r)
    ensures forall id | id in t.rows :: id in r.rows && r.rows[id] == t.rows[id]
    ensures forall id | id in r.rows && id !in t.rows ::
      r.rows[id].slotId == slot && r.rows[id].status == Available && 0 <= r.rows[id].key
    ensures !Isset(layout, "max_items") ==> forall k | 0 <= k < 3 :: Find(r, slot, k).Some?
    ensures Isset(layout, "max_items") ==>
      (forall k | 0 <= k < ToInt(layout["max_items"]) :: Find(r, slot, k).Some?) &&
      (forall id | id in r.rows && id !in t.rows :: r.rows[id].key < ToInt(layout["max_items"]))
  {
    CreateUnits(t, slot, CreateMaxItems(layout), clock)
  }

  /** `update` AS WRITTEN: the units are resized with `adjust_units` as
      written, and only when the submitted layout sets `max_items`. */
  function UpdateSlotUnitsAsWritten(t: Table, slot: int, layout: Option<map<string, PVal>>, clock: Clock): (r: Table)
    requires IdsBelowNext(t)
    ensures IdsBelowNext(r)
    ensures !(layout.Some? && Isset(layout.value, "max_items")) ==> r == t
    ensures forall id | id in t.rows && id !in r.rows ::
      layout.Some? && Isset(layout.value, "max_items") &&
      Removable(t.rows[id], slot, ToInt(layout.value["max_items"]))
    ensures forall id | id in r.rows && id in t.rows :: r.rows[id] == t.rows[id]
  {
    if layout.Some? && Isset(layout.value, "max_items") then
      AdjustUnitsAsWritten(t, slot, ToInt(layout.value["max_items"]), clock)
    else t
  }

  /** Even as written, an update never puts two occupied rows on one position. */
  lemma UpdateAsWrittenKeepsOneOccupant(t: Table, slot: int, layout: Option<map<string, PVal>>, clock: Clock)
    requires IdsBelowNext(t) && AtMostOneOccupied(t)
    ensures AtMostOneOccupied(UpdateSlotUnitsAsWritten(t, slot, layout, clock))
  {
    if layout.Some? && Isset(layout.value, "max_items") {
      AdjustUnitsAsWrittenKeepsOneOccupant(t, slot, ToInt(layout.value["max_items"]), clock);
    }
  }

  /** Two updates as written, to one unit and back to three, leave two rows
      on one position of a valid table. */
  lemma UpdateAsWrittenBreaksValid(clock: Clock)
    ensures var t0 := ShrinkGrowTable(clock);
            var t1 := UpdateSlotUnitsAsWritten(t0, 7, Some(map["max_items" := PInt(1)]), clock);
            Valid(t0) && !Valid(UpdateSlotUnitsAsWritten(t1, 7, Some(map["max_items" := PInt(3)]), clock))
  {
    var t0 := ShrinkGrowTable(clock);
    ShrinkGrowTableValid(clock);
    var one, three := map["max_items" := PInt(1)], map["max_items" := PInt(3)];
    assert Isset(one, "max_items") && ToInt(one["max_items"]) == 1;
    assert Isset(three, "max_items") && ToInt(three["max_items"]) == 3;
    var t1 := UpdateSlotUnitsAsWritten(t0, 7, Some(one), clock);
    assert t1 == AdjustUnitsAsWritten(t0, 7, 1, clock);
    AdjustUnitsAsWrittenDuplicatesKey(clock);
    assert UpdateSlotUnitsAsWritten(t1, 7, Some(three), clock) == AdjustUnitsAsWritten(t1, 7, 3, clock);
  }

  lemma ShrinkGrowTableValid(clock: Clock)
    ensures Valid(ShrinkGrowTable(clock))
  {
    var t := ShrinkGrowTable(clock);
    assert t.rows.Keys == {1, 2, 3};
    forall a, b | a in t.rows && b in t.rows && a != b
      ensures !SameCell(t.rows[a], t.rows[b])
    {
      assert t.rows[a].key == a - 1 && t.rows[b].key == b - 1;
    }
  }

  /** `update` with `adjust_units` as evidently intended: the units are
      resized only when the submitted layout sets `max_items`; any other
      update leaves the unit table alone. */
  function UpdateSlotUnits(t: Table, slot: int, layout: Option<map<string, PVal>>, clock: Clock): (r: Table)
    requires IdsBelowNext(t)
    ensures IdsBelowNext(r)
    ensures !(layout.Some? && Isset(layout.value, "max_items")) ==> r == t
    ensures forall id | id in t.rows && id !in r.rows ::
      layout.Some? && Isset(layout.value, "max_items") &&
      Removable(t.rows[id], slot, ToInt(layout.value["max_items"]))
    ensures forall id | id in r.rows && id in t.rows :: r.rows[id] == t.rows[id]
  {
    if layout.Some? && Isset(layout.value, "max_items") then
      AdjustUnits(t, slot, ToInt(layout.value["max_items"]), clock)
    else t
  }

  /** Creating a slot, or updating it with the intended resize, keeps the
      unit table valid: no position ever gets a second row. */
  lemma SlotWritesKeepValid(t: Table, slot: int, layout: map<string, PVal>, update: Option<map<string, PVal>>, clock: Clock)
    requires Valid(t)
    ensures SlotIds(t, slot) == {} ==> Valid(NewSlotUnits(t, slot, layout, clock))
    ensures Valid(UpdateSlotUnits(t, slot, update, clock))
  {
    if SlotIds(t, slot) == {} {
      CreateUnitsKeepsValid(t, slot, CreateMaxItems(layout), clock);
    }
    if update.Some? && Isset(update.value, "max_items") {
      AdjustUnitsKeepsValid(t, slot, ToInt(update.value["max_items"]), clock);
    }
  }

  /** `delete`: every row of the slot goes; other slots' rows stay. */
  function DeleteSlotUnits(t: Table, slot: int): (r: Table)
    ensures r.nextId == t.nextId && r.rows.Keys <= t.rows.Keys
    ensures SlotIds(r, slot) == {}
    ensures forall id | id in t.rows && t.rows[id].slotId != slot :: id in r.rows && r.rows[id] == t.rows[id]
    ensures Valid(t) ==> Valid(r)
  {
    Table(map id | id in t.rows && t.rows[id].slotId != slot :: t.rows[id], t.nextId)
  }

  /** One entry of the render listing: the content columns are exposed only
      for a live sale. */
  datatype RenderItem = RenderItem(unitId: int, key: int, status: UnitStatus, shown: Option<map<ContentField, Val>>)

  /** The columns a live unit exposes to the page. */
  const RenderedFields: set<ContentField> :=
    {CustomerName, WebsiteName, WebsiteUrl, ImageUrl, TextContent, TargetUrl, ColorKey}

  /** A sale is live while `ends_at` is set, non-zero and still ahead. */
  predicate Live(u: Unit, now: int) {
    u.status == Paid && u.endsAt.Some? && u.endsAt.value != 0 && u.endsAt.value > now
  }

  function RenderOf(id: int, u: Unit, now: int): (it: RenderItem)
    ensures it.unitId == id && it.key == u.key && it.status == u.status
    ensures it.shown.Some? <==> Live(u, now)
    ensures it.shown.Some? ==> (it.shown.value.Keys <= RenderedFields &&
      forall f | f in RenderedFields && f in u.content :: f in it.shown.value && it.shown.value[f] == u.content[f])
  {
    RenderItem(id, u.key, u.status,
      if Live(u, now) then Some(map f | f in u.content && f in RenderedFields :: u.content[f]) else None)
  }

  predicate UniqueIds(s: seq<RenderItem>) {
    forall a, b | 0 <= a < b < |s| :: s[a].unitId != s[b].unitId
  }

  function Ids(s: seq<RenderItem>): set<int> {
    set y | y in s :: y.unitId
  }

  /** The listing order: by key, then by id. */
  predicate Before(a: RenderItem, b: RenderItem) {
    a.key < b.key || (a.key == b.key && a.unitId < b.unitId)
  }

  predicate SortedItems(s: seq<RenderItem>) {
    forall i, j | 0 <= i < j < |s| :: Before(s[i], s[j])
  }

  lemma SortedCons(a: RenderItem, t: seq<RenderItem>)
    ensures SortedItems([a] + t) <==> SortedItems(t) && forall y | y in t :: Before(a, y)
  {
    var r := [a] + t;
    assert forall k | 1 <= k < |r| :: r[k] == t[k - 1];
    if SortedItems(t) && (forall y | y in t :: Before(a, y)) {
      forall i, j | 0 <= i < j < |r|
        ensures Before(r[i], r[j])
      {
        assert r[j] == t[j - 1] && t[j - 1] in t;
      }
    }
    if SortedItems(r) {
      forall y | y in t
        ensures Before(a, y)
      {
        var k :| 0 <= k < |t| && t[k] == y;
        assert r[0] == a && r[k + 1] == y;
      }
      forall i, j | 0 <= i < j < |t|
        ensures Before(t[i], t[j])
      {
        assert r[i + 1] == t[i] && r[j + 1] == t[j];
      }
    }
  }

  /** Puts `x` in front of the first item that does not rank below it. */
  function InsertItem(x: RenderItem, s: seq<RenderItem>): (r: seq<RenderItem>)
    requires SortedItems(s)
    requires forall y | y in s :: x.unitId < y.unitId
    ensures SortedItems(r)
    ensures multiset(r) == multiset(s) + multiset{x}
  {
    if s == [] then [x]
    else
      assert s == [s[0]] + s[1..];
      SortedCons(s[0], s[1..]);
      if x.key <= s[0].key then
        SortedCons(x, s);
        [x] + s
      else
        var rest := InsertItem(x, s[1..]);
        assert forall y | y in rest :: y == x || y in s[1..] by {
          forall y | y in rest ensures y == x || y in s[1..] {
            assert y in multiset(rest);
          }
        }
        SortedCons(s[0], rest);
        [s[0]] + rest
  }

  /** In a sorted listing where each item's key is its row's key, no row is
      listed twice. */
  lemma SortedListingUnique(t: Table, s: seq<RenderItem>)
    requires SortedItems(s)
    requires forall y | y in s :: y.unitId in t.rows && y.key == t.rows[y.unitId].key
    ensures UniqueIds(s)
  {
    forall a, b | 0 <= a < b < |s|
      ensures s[a].unitId != s[b].unitId
    {
      assert s[a] in s && s[b] in s;
    }
  }

  function RenderFrom(t: Table, slot: int, now: int, i: int): (r: seq<RenderItem>)
    ensures SortedItems(r)
    ensures forall y | y in r :: (i <= y.unitId && y.unitId in SlotIds(t, slot) &&
      y == RenderOf(y.unitId, t.rows[y.unitId], now))
    decreases t.nextId - i
  {
    if i >= t.nextId then []
    else
      var rest := RenderFrom(t, slot, now, i + 1);
      if i in SlotIds(t, slot) then
        var r := InsertItem(RenderOf(i, t.rows[i], now), rest);
        assert forall y | y in r :: y in multiset(r);
        r
      else rest
  }

  lemma IdsOfInsert(x: RenderItem, rest: seq<RenderItem>, r: seq<RenderItem>)
    requires multiset(r) == multiset(rest) + multiset{x}
    ensures Ids(r) == Ids(rest) + {x.unitId}
  {
    forall id | id in Ids(r)
      ensures id in Ids(rest) + {x.unitId}
    {
      var y :| y in r && y.unitId == id;
      assert y in multiset(r);
    }
    forall id | id in Ids(rest) + {x.unitId}
      ensures id in Ids(r)
    {
      if id == x.unitId {
        assert x in multiset(r);
      } else {
        var y :| y in rest && y.unitId == id;
        assert y in multiset(rest);
        assert y in multiset(r);
      }
    }
  }

  function IdRange(t: Table, slot: int, i: int): set<int> {
    set id | id in SlotIds(t, slot) && i <= id < t.nextId
  }

  lemma {:induction false} RenderFromCovers(t: Table, slot: int, now: int, i: int)
    ensures Ids(RenderFrom(t, slot, now, i)) == IdRange(t, slot, i)
    decreases t.nextId - i
  {
    IdRangeStep(t, slot, i);
    if i < t.nextId {
      RenderFromCovers(t, slot, now, i + 1);
      if i in SlotIds(t, slot) {
        IdsOfInsert(RenderOf(i, t.rows[i], now), RenderFrom(t, slot, now, i + 1), RenderFrom(t, slot, now, i));
      }
    }
  }

  /** The id range starting at `i` is the range after it plus `i` itself
      when `i` is a row of the slot; it is empty from `nextId` on. */
  lemma IdRangeStep(t: Table, slot: int, i: int)
    ensures i >= t.nextId ==> IdRange(t, slot, i) == {}
    ensures i < t.nextId && i in SlotIds(t, slot) ==> IdRange(t, slot, i) == IdRange(t, slot, i + 1) + {i}
    ensures i < t.nextId && i !in SlotIds(t, slot) ==> IdRange(t, slot, i) == IdRange(t, slot, i + 1)
  {
  }

  /** `get_units_for_render`: every row of the slot once, in key order, with
      content shown exactly for live sales. */
  function UnitsForRender(t: Table, slot: int, now: int): (r: seq<RenderItem>)
    requires IdsBelowNext(t)
    ensures SortedItems(r) && UniqueIds(r)
    ensures forall y | y in r :: y.unitId in SlotIds(t, slot) && y == RenderOf(y.unitId, t.rows[y.unitId], now)
    ensures SlotIds(t, slot) == Ids(r)
  {
    RenderFromCovers(t, slot, now, 1);
    assert IdRange(t, slot, 1) == SlotIds(t, slot);
    SortedListingUnique(t, RenderFrom(t, slot, now, 1));
    RenderFrom(t, slot, now, 1)
  }
}
