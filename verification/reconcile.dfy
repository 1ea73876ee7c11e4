/** Order reconciliation: the periodic job that times out stale pending
    ledger rows and replays paid provider orders whose success callback
    never reached the plugin, and its throttled run on admin page loads. */
module Reconcile {
  import opened Common
  import Ledger
  import Helpers
  import OrderSync

  /** One row of the payment provider's order table: the order as the
      success callback receives it, and the provider's status (1 = paid). */
  datatype ProviderEntry = ProviderEntry(order: OrderSync.ProviderOrder, status: int)

  /** The provider's order table keyed by its auto-increment id. */
  datatype ProviderTable = ProviderTable(rows: map<int, ProviderEntry>, nextId: int)

  ghost predicate ProviderIdsBelowNext(p: ProviderTable) {
    forall id | id in p.rows :: 1 <= id < p.nextId
  }

  /** Each provider row hands the callback an order that carries the row's
      own id. */
  ghost predicate OrdersKnowTheirIds(p: ProviderTable) {
    forall id | id in p.rows :: p.rows[id].order.id == Some(id)
  }

  // ---------------------------------------------------------------------
  // The timeout sweep

  /** The minutes a pending row may age before it is timed out: the
      payment window plus ten minutes of slack. */
  function SweepAge(themeTimeout: Option<PVal>): (r: int)
    ensures r >= 10
  {
    Helpers.OrderTimeout(themeTimeout) + 10
  }

  function TimedOut(row: Ledger.OrderRow, clock: Clock): Ledger.OrderRow {
    row.(status := Ledger.PayTimeout, closedAt := Some(clock.local))
  }

  /** The pending rows created before `cutoff`. */
  function StalePending(l: Ledger.Orders, cutoff: int): (ids: set<int>)
    ensures forall id :: id in ids <==>
      id in l.rows && l.rows[id].status == Ledger.PayPending && l.rows[id].createdAt < cutoff
  {
    set id | id in l.rows && l.rows[id].status == Ledger.PayPending && l.rows[id].createdAt < cutoff
  }

  /** `UPDATE … SET pay_status = 'timeout', closed_at = now WHERE
      pay_status = 'pending' AND created_at < cutoff`. */
  function Sweep(l: Ledger.Orders, cutoff: int, clock: Clock): (r: Ledger.Orders)
    ensures r.nextId == l.nextId && r.rows.Keys == l.rows.Keys
    ensures forall id | id in l.rows ::
      (r.rows[id].status == Ledger.PayTimeout <==>
         l.rows[id].status == Ledger.PayTimeout || (l.rows[id].status == Ledger.PayPending && l.rows[id].createdAt < cutoff))
    ensures forall id | id in l.rows && !(l.rows[id].status == Ledger.PayPending && l.rows[id].createdAt < cutoff) ::
      r.rows[id] == l.rows[id]
    ensures forall id | id in l.rows :: r.rows[id].zid == l.rows[id].zid
  {
    Ledger.UpdateWhere(l, StalePending(l, cutoff), row => TimedOut(row, clock))
  }

  /** The cutoff as written: `gmdate` of the Unix time, that is UTC wall
      time, compared with `created_at`, which holds site-local wall time. */
  function CutoffAsWritten(themeTimeout: Option<PVal>, clock: Clock): int {
    clock.unix - SweepAge(themeTimeout) * 60
  }

  /** The cutoff in the clock `created_at` is written with. */
  function Cutoff(themeTimeout: Option<PVal>, clock: Clock): (r: int)
    ensures r <= clock.local - 10 * 60
  {
    clock.local - SweepAge(themeTimeout) * 60
  }

  /** With the corrected cutoff a row younger than the payment window plus
      the slack is never timed out, and every older pending row is. */
  lemma SweepSparesFreshRows(l: Ledger.Orders, themeTimeout: Option<PVal>, clock: Clock)
    ensures var r := Sweep(l, Cutoff(themeTimeout, clock), clock);
      forall id | id in l.rows && l.rows[id].status == Ledger.PayPending ::
        (r.rows[id].status == Ledger.PayPending <==>
           l.rows[id].createdAt >= clock.local - (Helpers.OrderTimeout(themeTimeout) + 10) * 60)
  {
  }

  /** The corrected sweep and the reservation agree on the window: a
      pending row written when `prepare_order` locked its unit until
      `lockUntil` is timed out exactly when that lock lapsed more than ten
      minutes ago (on a site whose UTC offset did not change). */
  lemma SweepFollowsTheLock(l: Ledger.Orders, id: int, themeTimeout: Option<PVal>, at: Clock, now: Clock, lockUntil: int)
    requires id in l.rows && l.rows[id].status == Ledger.PayPending && l.rows[id].createdAt == at.local
    requires lockUntil == at.unix + Helpers.OrderTimeout(themeTimeout) * 60
    requires now.local - now.unix == at.local - at.unix
    ensures Sweep(l, Cutoff(themeTimeout, now), now).rows[id].status == Ledger.PayTimeout <==> now.unix > lockUntil + 600
  {
  }

  /** On a site west of UTC (local time behind UTC) the written cutoff
      times out a row created this very second, while its unit is still
      locked for payment. */
  lemma SweepAsWrittenTimesOutFreshRow(l: Ledger.Orders, id: int, themeTimeout: Option<PVal>, clock: Clock)
    requires id in l.rows && l.rows[id].status == Ledger.PayPending && l.rows[id].createdAt == clock.local
    requires themeTimeout == Some(PInt(30)) && clock.local == clock.unix - 5 * 3600
    ensures Sweep(l, CutoffAsWritten(themeTimeout, clock), clock).rows[id].status == Ledger.PayTimeout
    ensures Sweep(l, Cutoff(themeTimeout, clock), clock).rows[id].status == Ledger.PayPending
  {
  }

  /** The sweep changes statuses only, so it keeps the ledger's
      invariants. */
  lemma SweepKeepsInvariants(l: Ledger.Orders, cutoff: int, clock: Clock)
    requires Ledger.IdsBelowNext(l) && Ledger.UniqueProviderIds(l)
    ensures Ledger.IdsBelowNext(Sweep(l, cutoff, clock)) && Ledger.UniqueProviderIds(Sweep(l, cutoff, clock))
  {
    Ledger.UpdateKeepingIdsKeepsUnique(l, StalePending(l, cutoff), row => TimedOut(row, clock));
  }

  // ---------------------------------------------------------------------
  // Candidate selection

  /** A provider order the job looks for: an ad order (type 31), paid
      (status 1), with no ledger row carrying its id (the LEFT JOIN … IS
      NULL). */
  predicate Missing(p: ProviderTable, l: Ledger.Orders, id: int) {
    id in p.rows && p.rows[id].order.orderType == Some(31) && p.rows[id].status == 1 && Ledger.RowsOf(l, id) == {}
  }

  predicate Descending(xs: seq<int>) {
    forall a, b | 0 <= a < b < |xs| :: xs[a] > xs[b]
  }

  /** The missing orders with id at most `i`, `ORDER BY id DESC`. */
  function MissingDesc(p: ProviderTable, l: Ledger.Orders, i: int): (r: seq<int>)
    ensures forall k | 0 <= k < |r| :: 1 <= r[k] <= i && Missing(p, l, r[k])
    ensures forall id | 1 <= id <= i && Missing(p, l, id) :: id in r
    ensures Descending(r)
    decreases i
  {
    if i < 1 then []
    else if Missing(p, l, i) then [i] + MissingDesc(p, l, i - 1)
    else MissingDesc(p, l, i - 1)
  }

  /** The `LIMIT`. */
  function Take(xs: seq<int>, n: nat): (r: seq<int>)
    ensures |r| == Min(n, |xs|) && r == xs[..|r|]
  {
    xs[..Min(n, |xs|)]
  }

  /** The deny-list filter (`array_filter` with a strict `in_array`) is
      `Without`, which keeps the order; a descending list stays
      descending. */
  lemma {:induction false} AllowedKeepsOrder(xs: seq<int>, deny: seq<int>)
    requires Descending(xs)
    ensures Descending(Without(xs, deny))
  {
    if xs != [] {
      AllowedKeepsOrder(xs[1..], deny);
      var rest := Without(xs[1..], deny);
      forall k | 0 <= k < |rest|
        ensures rest[k] < xs[0]
      {
        assert rest[k] in xs[1..];
      }
    }
  }

  /** The orders the job replays as written: the `limit` newest missing
      orders, then the deny-list applied to those. */
  function ReplayedAsWritten(p: ProviderTable, l: Ledger.Orders, deny: seq<int>, limit: int): (r: seq<int>)
    ensures forall k | 0 <= k < |r| :: r[k] in p.rows
    ensures forall x | x in r :: Missing(p, l, x) && x !in deny
    ensures |r| <= Absint(limit) && Descending(r)
  {
    var all := MissingDesc(p, l, p.nextId - 1);
    var taken := Take(all, Absint(limit));
    var r := Without(taken, deny);
    assert forall k | 0 <= k < |r| :: r[k] in all by {
      forall k | 0 <= k < |r| ensures r[k] in all {
        assert r[k] in taken;
      }
    }
    TakeOfDescending(all, Absint(limit));
    AllowedKeepsOrder(taken, deny);
    r
  }

  /** The orders the job replays with the deny-list applied before the
      limit. */
  function Replayed(p: ProviderTable, l: Ledger.Orders, deny: seq<int>, limit: int): (r: seq<int>)
    ensures forall k | 0 <= k < |r| :: r[k] in p.rows
    ensures forall x | x in r :: Missing(p, l, x) && x !in deny
    ensures Descending(r)
  {
    var all := MissingDesc(p, l, p.nextId - 1);
    var allowed := Without(all, deny);
    var r := Take(allowed, Absint(limit));
    assert forall k | 0 <= k < |r| :: r[k] in allowed && r[k] in all by {
      forall k | 0 <= k < |r| ensures r[k] in allowed && r[k] in all {
        assert r[k] == allowed[k];
      }
    }
    AllowedKeepsOrder(all, deny);
    TakeOfDescending(allowed, Absint(limit));
    r
  }

  /** The corrected selection replays the newest missing orders that are
      not denied, as many as the limit allows: each replayed order is
      missing and not denied, newer than every such order left out, and an
      order is left out only when the limit is reached. */
  lemma {:induction false} ReplayedIsNewestAllowed(p: ProviderTable, l: Ledger.Orders, deny: seq<int>, limit: int)
    requires ProviderIdsBelowNext(p)
    ensures var r := Replayed(p, l, deny, limit);
      |r| <= Absint(limit) && Descending(r) &&
      (forall x | x in r :: Missing(p, l, x) && x !in deny) &&
      (forall x | Missing(p, l, x) && x !in deny && x !in r :: |r| == Absint(limit) && forall y | y in r :: y > x)
  {
    var all := MissingDesc(p, l, p.nextId - 1);
    var allowed := Without(all, deny);
    AllowedKeepsOrder(all, deny);
    TakeOfDescending(allowed, Absint(limit));
    var r := Replayed(p, l, deny, limit);
    assert r == Take(allowed, Absint(limit));
    forall x | x in r
      ensures Missing(p, l, x) && x !in deny
    {
      assert x in allowed;
    }
    forall x | Missing(p, l, x) && x !in deny && x !in r
      ensures x in allowed
    {
      assert 1 <= x < p.nextId;
    }
  }

  /** A limit on a descending list keeps a prefix: whatever it leaves out
      is older than everything it keeps, and is left out only once the
      limit is reached. */
  lemma TakeOfDescending(xs: seq<int>, n: nat)
    requires Descending(xs)
    ensures var r := Take(xs, n);
      Descending(r) && forall x | x in xs && x !in r :: |r| == n && forall y | y in r :: y > x
  {
    var r := Take(xs, n);
    forall x | x in xs && x !in r
      ensures |r| == n && forall y | y in r :: y > x
    {
      var k :| 0 <= k < |xs| && xs[k] == x;
      assert k >= |r|;
      forall y | y in r
        ensures y > x
      {
        var j :| 0 <= j < |r| && r[j] == y;
        assert xs[j] == y;
      }
    }
  }

  /** The written order of limit and filter lets denied orders use up the
      limit: with orders 5 and 3 both paid and missing, 5 denied and a
      limit of 1, nothing is replayed and order 3 waits for ever; the
      corrected selection replays it. */
  lemma ReplayedAsWrittenStarves(o5: OrderSync.ProviderOrder, o3: OrderSync.ProviderOrder, l: Ledger.Orders)
    requires o5.orderType == Some(31) && o3.orderType == Some(31)
    requires Ledger.RowsOf(l, 5) == {} && Ledger.RowsOf(l, 3) == {}
    ensures var p := ProviderTable(map[5 := ProviderEntry(o5, 1), 3 := ProviderEntry(o3, 1)], 6);
      ReplayedAsWritten(p, l, [5], 1) == [] && Replayed(p, l, [5], 1) == [3]
  {
    var p := ProviderTable(map[5 := ProviderEntry(o5, 1), 3 := ProviderEntry(o3, 1)], 6);
    assert !Missing(p, l, 1) && !Missing(p, l, 2) && !Missing(p, l, 4);
    assert Missing(p, l, 3) && Missing(p, l, 5);
    assert MissingDesc(p, l, 0) == [];
    assert MissingDesc(p, l, 2) == [];
    assert MissingDesc(p, l, 3) == [3];
    assert MissingDesc(p, l, 4) == [3];
    assert MissingDesc(p, l, 5) == [5, 3];
    assert Take([5, 3], 1) == [5];
    assert Without([3], [5]) == [3] by { assert 3 !in [5]; }
  }

  // ---------------------------------------------------------------------
  // Replay and the job

  /** Each order handed to the success callback in turn. `fails` says
      which replays hit a failed unit write. */
  function ReplayAll(s: OrderSync.Store, p: ProviderTable, ids: seq<int>, fails: int -> bool, clock: Clock): (r: OrderSync.Store)
    requires Ledger.IdsBelowNext(s.orders)
    requires forall k | 0 <= k < |ids| :: ids[k] in p.rows
    ensures Ledger.IdsBelowNext(r.orders)
    ensures r.units.nextId == s.units.nextId && r.units.rows.Keys == s.units.rows.Keys
    ensures s.orders.rows.Keys <= r.orders.rows.Keys
    decreases |ids|
  {
    if ids == [] then s
    else ReplayAll(OrderSync.OnPaymentSuccess(s, p.rows[ids[0]].order, fails(ids[0]), clock), p, ids[1..], fails, clock)
  }

  /** Replaying orders that are not ad orders changes nothing. */
  lemma {:induction false} ReplayIgnoresOtherOrders(s: OrderSync.Store, p: ProviderTable, ids: seq<int>, fails: int -> bool, clock: Clock)
    requires Ledger.IdsBelowNext(s.orders)
    requires forall k | 0 <= k < |ids| :: ids[k] in p.rows && !OrderSync.IsAdOrder(p.rows[ids[k]].order)
    ensures ReplayAll(s, p, ids, fails, clock) == s
    decreases |ids|
  {
    if ids != [] {
      ReplayIgnoresOtherOrders(s, p, ids[1..], fails, clock);
    }
  }

  /** No order outside `ids` has a row in `l1` it did not have in `l`. */
  ghost predicate KeepsOthers(l: Ledger.Orders, l1: Ledger.Orders, ids: seq<int>) {
    forall z | z !in ids :: Ledger.RowsOf(l1, z) <= Ledger.RowsOf(l, z)
  }

  /** Every row of `l` that was not pending is in `l1` unchanged. */
  ghost predicate KeepsSettled(l: Ledger.Orders, l1: Ledger.Orders) {
    forall id | id in l.rows && l.rows[id].status != Ledger.PayPending :: id in l1.rows && l1.rows[id] == l.rows[id]
  }

  /** Each order of `ids` that takes the main path with a successful unit
      write has a row in `l1`. */
  ghost predicate Lands(l1: Ledger.Orders, p: ProviderTable, ids: seq<int>, fails: int -> bool) {
    forall x | x in ids && x in p.rows && !fails(x) && OrderSync.MainLands(p.rows[x].order) :: Ledger.RowsOf(l1, x) != {}
  }

  /** Replaying orders no ledger row carries yet, newest first: the store
      stays valid with one pending row per token, no other order gains a
      row, rows that were not pending are left alone, and each main-path
      order whose unit write succeeds ends with a row. */
  lemma {:induction false} ReplayAllKeepsValid(s: OrderSync.Store, p: ProviderTable, ids: seq<int>, fails: int -> bool, clock: Clock)
    requires OrderSync.Valid(s) && Ledger.TokensUnique(s.orders)
    requires ProviderIdsBelowNext(p) && OrdersKnowTheirIds(p) && Descending(ids)
    requires forall x | x in ids :: Missing(p, s.orders, x)
    ensures forall k | 0 <= k < |ids| :: ids[k] in p.rows
    ensures var r := ReplayAll(s, p, ids, fails, clock);
      OrderSync.Valid(r) && Ledger.TokensUnique(r.orders) && KeepsOthers(s.orders, r.orders, ids) &&
      KeepsSettled(s.orders, r.orders) && Lands(r.orders, p, ids, fails)
    decreases |ids|
  {
    assert forall k | 0 <= k < |ids| :: ids[k] in ids;
    if ids != [] {
      var x := ids[0];
      var o := p.rows[x].order;
      var s1 := OrderSync.OnPaymentSuccess(s, o, fails(x), clock);
      OrderSync.SuccessOnUnrecordedOrder(s, o, fails(x), clock);
      OrderSync.TouchesOnlyFacts(s.orders, s1.orders, x);
      var rest := ids[1..];
      RestIsOlder(ids);
      assert forall y | y in rest :: Missing(p, s1.orders, y);
      ReplayAllKeepsValid(s1, p, rest, fails, clock);
      var r := ReplayAll(s1, p, rest, fails, clock);
      assert r == ReplayAll(s, p, ids, fails, clock);
      ReplayStepCombines(s.orders, s1.orders, r.orders, p, x, ids, fails, o);
    }
  }

  /** The head of a descending list is larger than everything after it. */
  lemma RestIsOlder(ids: seq<int>)
    requires Descending(ids) && ids != []
    ensures Descending(ids[1..]) && forall y | y in ids[1..] :: y < ids[0]
    ensures forall y :: y in ids <==> y == ids[0] || y in ids[1..]
  {
    forall y | y in ids[1..] ensures y < ids[0] {
      var k :| 0 <= k < |ids[1..]| && ids[1..][k] == y;
      assert ids[k + 1] == y;
    }
  }

  /** One replay step followed by the rest gives the facts for the whole
      list. */
  lemma ReplayStepCombines(l: Ledger.Orders, l1: Ledger.Orders, r: Ledger.Orders, p: ProviderTable,
                           x: int, ids: seq<int>, fails: int -> bool, o: OrderSync.ProviderOrder)
    requires ids != [] && x == ids[0] && x in p.rows && o == p.rows[x].order
    requires forall y :: y in ids <==> y == x || y in ids[1..]
    requires x !in ids[1..]
    requires forall y | y != x :: Ledger.RowsOf(l1, y) <= Ledger.RowsOf(l, y)
    requires forall id | id in l.rows && l.rows[id].status != Ledger.PayPending :: id in l1.rows && l1.rows[id] == l.rows[id]
    requires forall id | id in Ledger.RowsOf(l1, x) :: l1.rows[id].status == Ledger.PayPaid
    requires !fails(x) && OrderSync.MainLands(o) ==> Ledger.RowsOf(l1, x) != {}
    requires KeepsOthers(l1, r, ids[1..]) && KeepsSettled(l1, r) && Lands(r, p, ids[1..], fails)
    ensures KeepsOthers(l, r, ids) && KeepsSettled(l, r) && Lands(r, p, ids, fails)
  {
    if !fails(x) && OrderSync.MainLands(o) {
      NonEmptyHasMember(Ledger.RowsOf(l1, x));
      var a :| a in Ledger.RowsOf(l1, x);
      assert a in Ledger.RowsOf(r, x);
    }
  }

  /** `run` as written. */
  function RunAsWritten(s: OrderSync.Store, p: ProviderTable, deny: seq<int>, limit: int, themeTimeout: Option<PVal>,
                        fails: int -> bool, clock: Clock): (r: OrderSync.Store)
    requires Ledger.IdsBelowNext(s.orders)
    ensures Ledger.IdsBelowNext(r.orders)
  {
    var l1 := Sweep(s.orders, CutoffAsWritten(themeTimeout, clock), clock);
    var ids := ReplayedAsWritten(p, l1, deny, limit);
    ReplayAll(s.(orders := l1), p, ids, fails, clock)
  }

  /** `run` with the local-time cutoff and the deny-list applied before
      the limit. */
  function Run(s: OrderSync.Store, p: ProviderTable, deny: seq<int>, limit: int, themeTimeout: Option<PVal>,
               fails: int -> bool, clock: Clock): (r: OrderSync.Store)
    requires Ledger.IdsBelowNext(s.orders)
    ensures Ledger.IdsBelowNext(r.orders)
    ensures r.units.rows.Keys == s.units.rows.Keys && s.orders.rows.Keys <= r.orders.rows.Keys
  {
    var l1 := Sweep(s.orders, Cutoff(themeTimeout, clock), clock);
    var ids := Replayed(p, l1, deny, limit);
    ReplayAll(s.(orders := l1), p, ids, fails, clock)
  }

  /** The sweep decides nothing about which orders are replayed: it
      changes statuses, and candidates are chosen by provider id alone. */
  lemma SweepKeepsCandidates(p: ProviderTable, l: Ledger.Orders, cutoff: int, clock: Clock, deny: seq<int>, limit: int)
    ensures Replayed(p, Sweep(l, cutoff, clock), deny, limit) == Replayed(p, l, deny, limit)
    ensures ReplayedAsWritten(p, Sweep(l, cutoff, clock), deny, limit) == ReplayedAsWritten(p, l, deny, limit)
  {
    var l1 := Sweep(l, cutoff, clock);
    forall z ensures Ledger.RowsOf(l1, z) == Ledger.RowsOf(l, z) {
    }
    assert forall id :: Missing(p, l1, id) == Missing(p, l, id);
    MissingDescFrom(p, l, l1, p.nextId - 1);
  }

  /** Two ledgers with the same missing orders give the same candidates. */
  lemma {:induction false} MissingDescFrom(p: ProviderTable, l: Ledger.Orders, l1: Ledger.Orders, i: int)
    requires forall id :: Missing(p, l1, id) == Missing(p, l, id)
    ensures MissingDesc(p, l1, i) == MissingDesc(p, l, i)
    decreases i
  {
    if i >= 1 {
      MissingDescFrom(p, l, l1, i - 1);
    }
  }

  /** The sweep keeps the store valid and one pending row per token: it
      only turns pending rows into timed-out ones. */
  lemma SweepKeepsStore(s: OrderSync.Store, cutoff: int, clock: Clock)
    requires OrderSync.Valid(s) && Ledger.TokensUnique(s.orders)
    ensures var l1 := Sweep(s.orders, cutoff, clock);
      OrderSync.Valid(s.(orders := l1)) && Ledger.TokensUnique(l1) &&
      (forall z :: Ledger.RowsOf(l1, z) == Ledger.RowsOf(s.orders, z))
  {
    SweepKeepsInvariants(s.orders, cutoff, clock);
    var l1 := Sweep(s.orders, cutoff, clock);
    forall z ensures Ledger.RowsOf(l1, z) == Ledger.RowsOf(s.orders, z) {
    }
  }

  /** A job run (sweep, then replay of `ids`) on a valid store, when the
      replayed orders are missing after the sweep, newest first, and none
      is denied. */
  lemma JobKeepsValid(s: OrderSync.Store, p: ProviderTable, deny: seq<int>, cutoff: int, ids: seq<int>,
                      fails: int -> bool, clock: Clock)
    requires OrderSync.Valid(s) && Ledger.TokensUnique(s.orders)
    requires ProviderIdsBelowNext(p) && OrdersKnowTheirIds(p) && Descending(ids)
    requires forall x | x in ids :: Missing(p, Sweep(s.orders, cutoff, clock), x) && x !in deny
    ensures forall k | 0 <= k < |ids| :: ids[k] in p.rows
    ensures var r := ReplayAll(s.(orders := Sweep(s.orders, cutoff, clock)), p, ids, fails, clock);
      OrderSync.Valid(r) && Ledger.TokensUnique(r.orders) &&
      (forall d | d in deny :: Ledger.RowsOf(r.orders, d) <= Ledger.RowsOf(s.orders, d)) &&
      Lands(r.orders, p, ids, fails)
  {
    var l1 := Sweep(s.orders, cutoff, clock);
    SweepKeepsStore(s, cutoff, clock);
    ReplayAllKeepsValid(s.(orders := l1), p, ids, fails, clock);
  }

  /** The corrected run keeps the store valid, never gives a denied order
      a row, and leaves a row for every replayed main-path order whose
      unit write succeeds. */
  lemma RunKeepsValid(s: OrderSync.Store, p: ProviderTable, deny: seq<int>, limit: int, themeTimeout: Option<PVal>,
                      fails: int -> bool, clock: Clock)
    requires OrderSync.Valid(s) && Ledger.TokensUnique(s.orders)
    requires ProviderIdsBelowNext(p) && OrdersKnowTheirIds(p)
    ensures var r := Run(s, p, deny, limit, themeTimeout, fails, clock);
      OrderSync.Valid(r) && Ledger.TokensUnique(r.orders) &&
      (forall d | d in deny :: Ledger.RowsOf(r.orders, d) <= Ledger.RowsOf(s.orders, d)) &&
      Lands(r.orders, p, Replayed(p, s.orders, deny, limit), fails)
  {
    var cutoff := Cutoff(themeTimeout, clock);
    SweepKeepsCandidates(p, s.orders, cutoff, clock, deny, limit);
    JobKeepsValid(s, p, deny, cutoff, Replayed(p, Sweep(s.orders, cutoff, clock), deny, limit), fails, clock);
  }

  /** The same holds of the run as written: its faults starve orders and
      time out fresh rows, but never break the ledger. */
  lemma RunAsWrittenKeepsValid(s: OrderSync.Store, p: ProviderTable, deny: seq<int>, limit: int, themeTimeout: Option<PVal>,
                               fails: int -> bool, clock: Clock)
    requires OrderSync.Valid(s) && Ledger.TokensUnique(s.orders)
    requires ProviderIdsBelowNext(p) && OrdersKnowTheirIds(p)
    ensures var r := RunAsWritten(s, p, deny, limit, themeTimeout, fails, clock);
      OrderSync.Valid(r) && Ledger.TokensUnique(r.orders) &&
      (forall d | d in deny :: Ledger.RowsOf(r.orders, d) <= Ledger.RowsOf(s.orders, d)) &&
      Lands(r.orders, p, ReplayedAsWritten(p, s.orders, deny, limit), fails)
  {
    var cutoff := CutoffAsWritten(themeTimeout, clock);
    SweepKeepsCandidates(p, s.orders, cutoff, clock, deny, limit);
    JobKeepsValid(s, p, deny, cutoff, ReplayedAsWritten(p, Sweep(s.orders, cutoff, clock), deny, limit), fails, clock);
  }

  // ---------------------------------------------------------------------
  // The throttled run

  /** The run on admin page loads: only for a user with the manage
      capability, at most once per 120 seconds (a transient holding the
      run's time, alive until its expiry `throttle`), at most 10 orders.
      Returns the store and the new throttle expiry. */
  function MaybeRunLightweight(canManage: bool, throttle: Option<int>, s: OrderSync.Store, p: ProviderTable,
                               deny: seq<int>, themeTimeout: Option<PVal>, fails: int -> bool, clock: Clock)
    : (r: (OrderSync.Store, Option<int>))
    requires Ledger.IdsBelowNext(s.orders)
    ensures Ledger.IdsBelowNext(r.0.orders)
    ensures !canManage ==> r == (s, throttle)
    ensures throttle.Some? && clock.unix <= throttle.value ==> r == (s, throttle)
    ensures r.1 != throttle ==>
      canManage && r.1 == Some(clock.unix + 120) && r.0 == Run(s, p, deny, 10, themeTimeout, fails, clock)
  {
    if !canManage || (throttle.Some? && clock.unix <= throttle.value) then (s, throttle)
    else (Run(s, p, deny, 10, themeTimeout, fails, clock), Some(clock.unix + 120))
  }

  /** A second admin page load within 120 seconds of a run does nothing,
      and a run replays at most 10 orders. */
  lemma LightweightRunIsThrottled(canManage: bool, throttle: Option<int>, s: OrderSync.Store, p: ProviderTable,
                                  deny: seq<int>, themeTimeout: Option<PVal>, fails: int -> bool, clock: Clock, clock2: Clock)
    requires Ledger.IdsBelowNext(s.orders)
    requires clock.unix <= clock2.unix <= clock.unix + 120
    ensures var r := MaybeRunLightweight(canManage, throttle, s, p, deny, themeTimeout, fails, clock);
      r.1 != throttle ==>
        MaybeRunLightweight(canManage, r.1, r.0, p, deny, themeTimeout, fails, clock2) == r &&
        |Replayed(p, Sweep(s.orders, Cutoff(themeTimeout, clock), clock), deny, 10)| <= 10
  {
  }
}
