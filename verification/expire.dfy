/** The hourly expiry job: paid units whose term has ended become expired,
    lapsed pending locks are released, and advertisers whose term ends
    soon are mailed once. Mail delivery and `is_email` are passed in. */
module Expire {
  import opened Common
  import Units
  import Helpers

  // ---------------------------------------------------------------------
  // Step 1: paid units past their term

  /** What the first SELECT picks: paid, with an end time not after now. */
  predicate Due(u: Units.Unit, now: int) {
    u.status == Units.Paid && u.endsAt.Some? && u.endsAt.value <= now
  }

  function DueIds(t: Units.Table, now: int): (s: set<int>)
    ensures forall id :: id in s <==> id in t.rows && Due(t.rows[id], now)
  {
    set id | id in t.rows && Due(t.rows[id], now)
  }

  function ExpiredRow(u: Units.Unit, clock: Clock): Units.Unit {
    u.(status := Units.Expired, updatedAt := clock.local)
  }

  /** The reference outcome of step 1: every due row expired, nothing else
      touched, and no due row left. */
  function ExpiredTable(t: Units.Table, clock: Clock): (r: Units.Table)
    ensures r.nextId == t.nextId && r.rows.Keys == t.rows.Keys
    ensures forall id | id in t.rows && Due(t.rows[id], clock.unix) ::
      r.rows[id].status == Units.Expired && r.rows[id].(status := Units.Paid, updatedAt := t.rows[id].updatedAt) == t.rows[id]
    ensures forall id | id in t.rows && !Due(t.rows[id], clock.unix) :: r.rows[id] == t.rows[id]
    ensures forall id | id in r.rows :: !Due(r.rows[id], clock.unix)
  {
    Units.Table(map id | id in t.rows :: if Due(t.rows[id], clock.unix) then ExpiredRow(t.rows[id], clock) else t.rows[id],
                t.nextId)
  }

  /** The table once the rows in `done` have been expired. */
  function ExpiredOn(t: Units.Table, done: set<int>, clock: Clock): (r: Units.Table)
    ensures r.nextId == t.nextId && r.rows.Keys == t.rows.Keys
  {
    Units.Table(map id | id in t.rows :: if id in done then ExpiredRow(t.rows[id], clock) else t.rows[id], t.nextId)
  }

  /** The due rows whose id is below `i`. */
  function DueBelow(t: Units.Table, now: int, i: int): (s: set<int>)
    ensures forall id :: id in s <==> id in t.rows && id < i && Due(t.rows[id], now)
  {
    set id | id in t.rows && id < i && Due(t.rows[id], now)
  }

  lemma ExpireStep(t: Units.Table, clock: Clock, i: int)
    ensures i in t.rows && Due(t.rows[i], clock.unix) ==>
      |DueBelow(t, clock.unix, i + 1)| == |DueBelow(t, clock.unix, i)| + 1 &&
      Units.SetExpired(ExpiredOn(t, DueBelow(t, clock.unix, i), clock), i, clock)
        == ExpiredOn(t, DueBelow(t, clock.unix, i + 1), clock)
    ensures !(i in t.rows && Due(t.rows[i], clock.unix)) ==>
      DueBelow(t, clock.unix, i + 1) == DueBelow(t, clock.unix, i)
  {
    var before := DueBelow(t, clock.unix, i);
    if i in t.rows && Due(t.rows[i], clock.unix) {
      assert DueBelow(t, clock.unix, i + 1) == before + {i};
      var a, b := Units.SetExpired(ExpiredOn(t, before, clock), i, clock), ExpiredOn(t, before + {i}, clock);
      assert a.rows == b.rows;
    } else {
      assert DueBelow(t, clock.unix, i + 1) == before;
    }
  }

  /** Step 1 of `run`: select the due rows and `set_expired` each (in id
      order), counting the successful updates. */
  method ExpirePaid(t: Units.Table, clock: Clock) returns (r: Units.Table, count: nat)
    requires Units.IdsBelowNext(t)
    ensures r == ExpiredTable(t, clock)
    ensures count == |DueIds(t, clock.unix)|
  {
    var i := 1;
    r, count := t, 0;
    assert DueBelow(t, clock.unix, i) == {};
    assert r.rows == ExpiredOn(t, {}, clock).rows;
    while i < t.nextId
      invariant 1 <= i <= t.nextId
      invariant count == |DueBelow(t, clock.unix, i)|
      invariant r == ExpiredOn(t, DueBelow(t, clock.unix, i), clock)
    {
      ExpireStep(t, clock, i);
      if i in t.rows && Due(t.rows[i], clock.unix) {
        r := Units.SetExpired(r, i, clock);
        count := count + 1;
      }
      i := i + 1;
    }
    assert DueBelow(t, clock.unix, i) == DueIds(t, clock.unix);
    assert ExpiredOn(t, DueIds(t, clock.unix), clock).rows == ExpiredTable(t, clock).rows;
  }

  /** A second step 1 at the same instant expires nothing. */
  lemma ExpireIdempotent(t: Units.Table, clock: Clock)
    ensures ExpiredTable(ExpiredTable(t, clock), clock) == ExpiredTable(t, clock)
    ensures DueIds(ExpiredTable(t, clock), clock.unix) == {}
  {
    var e := ExpiredTable(t, clock);
    assert ExpiredTable(e, clock).rows == e.rows;
  }

  /** Step 1 keeps the unit table valid. */
  lemma ExpireKeepsValid(t: Units.Table, clock: Clock)
    requires Units.Valid(t)
    ensures Units.Valid(ExpiredTable(t, clock)) && Units.AtMostOneOccupied(ExpiredTable(t, clock))
  {
    var r := ExpiredTable(t, clock);
    assert forall j | j in r.rows :: Units.SameCell(r.rows[j], t.rows[j]);
    Units.UniqueKeysGiveOneOccupant(r);
  }

  // ---------------------------------------------------------------------
  // Step 3: expiry notices

  /** The notices sent (unit ids) and the dedupe markers afterwards, each
      marker being the expiry time of the unit's `zibll_ad_expiry_notice_`
      transient. */
  datatype Notices = Notices(mailed: set<int>, markers: map<int, int>)

  predicate NoticesEnabled(settings: map<string, PVal>) {
    ToBool(Helpers.GetOption(settings, "enable_expiry_notification", PBool(true)))
  }

  /** The notice window in days, at least one. */
  function NoticeDays(settings: map<string, PVal>): (r: int)
    ensures r >= 1
    ensures r >= ToInt(Helpers.GetOption(settings, "expiry_notice_days", PInt(7)))
  {
    Max(1, ToInt(Helpers.GetOption(settings, "expiry_notice_days", PInt(7))))
  }

  /** The second SELECT: paid units ending within the window. */
  predicate Expiring(u: Units.Unit, now: int, days: int) {
    u.status == Units.Paid && u.endsAt.Some? && u.endsAt.value > 0 &&
    now <= u.endsAt.value <= now + days * DaySeconds
  }

  /** The contact is of type `email` with a non-empty value `is_email`
      accepts. */
  predicate MailContact(u: Units.Unit, isEmail: string -> bool) {
    Units.ContactType in u.content && u.content[Units.ContactType] == Str("email") &&
    Units.ContactValue in u.content && u.content[Units.ContactValue].Str? &&
    !EmptyVal(u.content[Units.ContactValue]) && isEmail(u.content[Units.ContactValue].s)
  }

  /** `get_transient` finds the marker until its expiry has passed. */
  predicate MarkerLive(markers: map<int, int>, id: int, now: int) {
    id in markers && now <= markers[id]
  }

  /** The units mailed: expiring, not yet marked, with a mail contact, and
      the send succeeded. */
  predicate Mailed(t: Units.Table, id: int, markers: map<int, int>, isEmail: string -> bool, sendOk: int -> bool,
                   now: int, days: int) {
    id in t.rows && Expiring(t.rows[id], now, days) && !MarkerLive(markers, id, now) &&
    MailContact(t.rows[id], isEmail) && sendOk(id)
  }

  /** The marker's expiry: `max(1, ends_at - now + DAY)` seconds from now. */
  function MarkerExpiry(u: Units.Unit, now: int): (r: int)
    requires u.endsAt.Some?
    ensures r > now && r >= u.endsAt.value + DaySeconds
  {
    now + Max(1, u.endsAt.value - now + DaySeconds)
  }

  /** `maybe_send_expiry_notifications`: one mail per expiring unit that
      has no live marker and an email contact, and a marker set only when
      the send succeeds (`sendOk`). */
  method SendExpiryNotices(settings: map<string, PVal>, t: Units.Table, markers: map<int, int>,
                           isEmail: string -> bool, sendOk: int -> bool, clock: Clock) returns (n: Notices)
    requires Units.IdsBelowNext(t)
    ensures !NoticesEnabled(settings) ==> n == Notices({}, markers)
    ensures NoticesEnabled(settings) ==>
      forall id :: id in n.mailed <==> Mailed(t, id, markers, isEmail, sendOk, clock.unix, NoticeDays(settings))
    ensures forall id :: id in n.markers <==> id in markers || id in n.mailed
    ensures forall id | id in n.mailed :: id in t.rows && t.rows[id].endsAt.Some? && n.markers[id] == MarkerExpiry(t.rows[id], clock.unix)
    ensures forall id | id in markers && id !in n.mailed :: n.markers[id] == markers[id]
  {
    if !NoticesEnabled(settings) {
      return Notices({}, markers);
    }
    var days := NoticeDays(settings);
    var now := clock.unix;
    var mailed: set<int> := {};
    var mk := markers;
    var i := 1;
    while i < t.nextId
      invariant 1 <= i <= t.nextId
      invariant forall id :: id in mailed <==> id < i && Mailed(t, id, markers, isEmail, sendOk, now, days)
      invariant forall id :: id in mk <==> id in markers || id in mailed
      invariant forall id | id in mailed :: id in t.rows && t.rows[id].endsAt.Some? && mk[id] == MarkerExpiry(t.rows[id], now)
      invariant forall id | id in markers && id !in mailed :: mk[id] == markers[id]
    {
      if i in t.rows && Expiring(t.rows[i], now, days) && !MarkerLive(markers, i, now) && MailContact(t.rows[i], isEmail) {
        if sendOk(i) {
          mailed := mailed + {i};
          mk := mk[i := MarkerExpiry(t.rows[i], now)];
        }
      }
      i := i + 1;
    }
    n := Notices(mailed, mk);
  }

  /** A unit is mailed at most once per term: at any later run while it is
      still expiring with the same end time, its marker is still live. */
  lemma NoticeSentOnce(t: Units.Table, t2: Units.Table, id: int, markers: map<int, int>, isEmail: string -> bool,
                       sendOk: int -> bool, now: int, now2: int, days: int, days2: int)
    requires Mailed(t, id, markers, isEmail, sendOk, now, days)
    requires now <= now2 && id in t2.rows && t2.rows[id].endsAt == t.rows[id].endsAt
    ensures !Mailed(t2, id, markers[id := MarkerExpiry(t.rows[id], now)], isEmail, sendOk, now2, days2)
  {
  }

  // ---------------------------------------------------------------------
  // The job

  /** `run`: expire the due paid units, release the lapsed pending locks,
      then send the notices for what remains. */
  method Run(settings: map<string, PVal>, t: Units.Table, markers: map<int, int>, isEmail: string -> bool,
             sendOk: int -> bool, clock: Clock) returns (r: Units.Table, expired: nat, released: nat, n: Notices)
    requires Units.IdsBelowNext(t)
    ensures r == Units.CleanedTable(ExpiredTable(t, clock), clock)
    ensures expired == |DueIds(t, clock.unix)|
    ensures forall id | id in r.rows :: !Due(r.rows[id], clock.unix) && !Units.PendingLapsed(r.rows[id], clock.unix)
    ensures NoticesEnabled(settings) ==>
      forall id :: id in n.mailed <==> Mailed(r, id, markers, isEmail, sendOk, clock.unix, NoticeDays(settings))
    ensures !NoticesEnabled(settings) ==> n == Notices({}, markers)
  {
    var t1;
    t1, expired := ExpirePaid(t, clock);
    r, released := Units.CleanupExpiredPending(t1, clock);
    forall id | id in r.rows
      ensures !Due(r.rows[id], clock.unix)
    {
      assert id in t1.rows;
    }
    n := SendExpiryNotices(settings, r, markers, isEmail, sendOk, clock);
  }

  /** The job keeps the unit table valid, and touches only due and lapsed
      rows. */
  lemma RunKeepsValid(t: Units.Table, clock: Clock)
    requires Units.Valid(t)
    ensures var r := Units.CleanedTable(ExpiredTable(t, clock), clock);
      Units.Valid(r) && Units.AtMostOneOccupied(r) &&
      forall id | id in t.rows && !Due(t.rows[id], clock.unix) && !Units.PendingLapsed(t.rows[id], clock.unix) ::
        r.rows[id] == t.rows[id]
  {
    ExpireKeepsValid(t, clock);
    Units.CleanupKeepsValid(ExpiredTable(t, clock), clock);
  }
}
