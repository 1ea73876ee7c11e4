/** The widget manager: keeps a slot's sidebar widget in exactly the
    sidebars the slot is bound to. The sidebar layout (`sidebars_widgets`)
    maps a sidebar id to its ordered list of widget ids; the widget
    instances map a slot id to its instance settings (the slot id). */
module Widgets {
  import opened Common

  /** The stored state the manager reads and writes. */
  datatype Store = Store(sidebars: map<string, seq<string>>, instances: map<int, int>)

  /** Which writes fail: a save of the sidebar layout that touches a sidebar
      in `unsaved`, and every instance save of a mount when `instanceFails`.
      The orphan clean-up ignores the result of its delete, so it is
      modelled as succeeding. */
  datatype Faults = Faults(unsaved: set<string>, instanceFails: bool)

  const NoFaults: Faults := Faults({}, false)

  datatype WidgetError =
    | InvalidSlotId | InvalidSidebar | SaveSidebarsFailed | UpdateInstanceFailed | UnmountFailed

  /** The sidebar WordPress parks unused widgets in; it never counts as a
      mount. */
  const Inactive: string := "wp_inactive_widgets"

  const IdBase: string := "zibll_ad_widget-"

  /** `get_widget_id`: the widget id of a slot. */
  function WidgetId(slot: int): (w: string)
    ensures |w| > |IdBase| && w[..|IdBase|] == IdBase
  {
    IdBase + IntToString(slot)
  }

  predicate Distinct(xs: seq<string>) {
    forall i, j | 0 <= i < j < |xs| :: xs[i] != xs[j]
  }

  /** No sidebar lists a widget twice. */
  predicate SidebarsDistinct(s: Store) {
    forall sb | sb in s.sidebars :: Distinct(s.sidebars[sb])
  }

  /** The list of a sidebar; an unset sidebar reads as empty. */
  function ListOf(s: Store, sb: string): seq<string> {
    if sb in s.sidebars then s.sidebars[sb] else []
  }

  // ---------------------------------------------------------------- removing one entry

  /** `array_search`: the position of the first occurrence. */
  function IndexOf(xs: seq<string>, w: string): (k: nat)
    requires w in xs
    ensures k < |xs| && xs[k] == w && w !in xs[..k]
  {
    if xs[0] == w then 0
    else
      assert xs == [xs[0]] + xs[1..];
      var k := IndexOf(xs[1..], w) + 1;
      assert xs[..k] == [xs[0]] + xs[1..][..k - 1];
      k
  }

  /** `unset` at a position followed by `array_values`: the other entries
      keep their order. */
  function RemoveAt(xs: seq<string>, k: nat): (r: seq<string>)
    requires k < |xs|
    ensures |r| == |xs| - 1
    ensures multiset(r) == multiset(xs) - multiset{xs[k]}
  {
    assert xs == xs[..k] + [xs[k]] + xs[k + 1..];
    xs[..k] + xs[k + 1..]
  }

  /** Removing an entry from a list without duplicates removes it
      completely and leaves a list without duplicates. */
  lemma RemoveAtDistinct(xs: seq<string>, k: nat)
    requires k < |xs| && Distinct(xs)
    ensures xs[k] !in RemoveAt(xs, k) && Distinct(RemoveAt(xs, k))
    ensures forall x | x != xs[k] :: x in RemoveAt(xs, k) <==> x in xs
  {
    var r := RemoveAt(xs, k);
    forall i, j | 0 <= i < j < |r|
      ensures r[i] != r[j]
    {
      var a := if i < k then i else i + 1;
      var b := if j < k then j else j + 1;
      assert r[i] == xs[a] && r[j] == xs[b];
    }
    forall x | x != xs[k]
      ensures x in r <==> x in xs
    {
      assert multiset(r)[x] == multiset(xs)[x];
    }
  }

  // ---------------------------------------------------------------- mount / unmount

  /** `mount_widget`: append the slot's widget to a registered sidebar,
      unless it is already there; then store the slot's instance. */
  function MountWidget(s: Store, slot: int, sb: string, registered: set<string>, faults: Faults): (r: Result<Store, WidgetError>)
    ensures sb !in registered ==> r == Err(InvalidSidebar)
    ensures r.Err? ==> r.error in {InvalidSidebar, SaveSidebarsFailed, UpdateInstanceFailed}
    ensures r.Ok? ==> sb in registered
    ensures r.Ok? && WidgetId(slot) in ListOf(s, sb) ==> r.value == s
    ensures r.Ok? && WidgetId(slot) !in ListOf(s, sb) ==>
      r.value.sidebars == s.sidebars[sb := ListOf(s, sb) + [WidgetId(slot)]] &&
      r.value.instances == s.instances[slot := slot]
    ensures sb in registered && !(WidgetId(slot) !in ListOf(s, sb) && (sb in faults.unsaved || faults.instanceFails)) ==>
      r.Ok?
  {
    var w := WidgetId(slot);
    var list := ListOf(s, sb);
    if sb !in registered then Err(InvalidSidebar)
    else if w in list then Ok(s)
    else if sb in faults.unsaved then Err(SaveSidebarsFailed)
    else if faults.instanceFails then Err(UpdateInstanceFailed)
    else Ok(Store(s.sidebars[sb := list + [w]], s.instances[slot := slot]))
  }

  /** `unmount_widget`: drop the first occurrence of the slot's widget from
      a sidebar. A sidebar that is not set, or does not list the widget,
      counts as success with nothing written. The flag is the success; a
      failed save leaves the store as it was, and a second occurrence left
      behind is reported as a failure after the save. */
  function UnmountWidget(s: Store, slot: int, sb: string, faults: Faults): (r: (Store, bool))
    ensures r.0.instances == s.instances && r.0.sidebars.Keys == s.sidebars.Keys
    ensures forall x | x in s.sidebars && x != sb :: r.0.sidebars[x] == s.sidebars[x]
    ensures sb !in s.sidebars || WidgetId(slot) !in s.sidebars[sb] ==> r == (s, true)
    ensures sb in s.sidebars && WidgetId(slot) in s.sidebars[sb] && sb !in faults.unsaved ==>
      var k := IndexOf(s.sidebars[sb], WidgetId(slot));
      r.0.sidebars[sb] == s.sidebars[sb][..k] + s.sidebars[sb][k + 1..]
    ensures sb in faults.unsaved ==> r.0 == s
    ensures r.1 <==> sb !in s.sidebars || WidgetId(slot) !in r.0.sidebars[sb]
  {
    var w := WidgetId(slot);
    if sb !in s.sidebars || w !in s.sidebars[sb] then (s, true)
    else if sb in faults.unsaved then (s, false)
    else
      var list := RemoveAt(s.sidebars[sb], IndexOf(s.sidebars[sb], w));
      (Store(s.sidebars[sb := list], s.instances), w !in list)
  }

  /** Unmounting right after mounting gives the sidebar its old list back. */
  lemma UnmountUndoesMount(s: Store, slot: int, sb: string, registered: set<string>)
    requires sb in s.sidebars && sb in registered && WidgetId(slot) !in s.sidebars[sb]
    ensures MountWidget(s, slot, sb, registered, NoFaults).Ok?
    ensures UnmountWidget(MountWidget(s, slot, sb, registered, NoFaults).value, slot, sb, NoFaults).0.sidebars ==
      s.sidebars
  {
    var xs := s.sidebars[sb];
    var m := MountWidget(s, slot, sb, registered, NoFaults).value;
    assert m.sidebars == s.sidebars[sb := xs + [WidgetId(slot)]];
    UnmountAppended(m, slot, sb, xs);
    RestoreEntry(s.sidebars, sb, xs + [WidgetId(slot)]);
  }

  /** Unmounting a widget listed once, at the end, leaves the list it was
      appended to. */
  lemma UnmountAppended(m: Store, slot: int, sb: string, xs: seq<string>)
    requires sb in m.sidebars && m.sidebars[sb] == xs + [WidgetId(slot)] && WidgetId(slot) !in xs
    ensures UnmountWidget(m, slot, sb, NoFaults).0.sidebars == m.sidebars[sb := xs]
  {
    var w := WidgetId(slot);
    IndexOfAppended(xs, w);
    var k := IndexOf(xs + [w], w);
    assert (xs + [w])[..k] == xs && (xs + [w])[k + 1..] == [];
    var u := UnmountWidget(m, slot, sb, NoFaults).0;
    assert u.sidebars[sb] == xs;
    assert u.sidebars.Keys == m.sidebars[sb := xs].Keys;
  }

  /** Overwriting an entry and then putting its old value back restores
      the map. */
  lemma RestoreEntry(m: map<string, seq<string>>, k: string, v: seq<string>)
    requires k in m
    ensures m[k := v][k := m[k]] == m
  {
  }

  /** A widget appended to a list that lacks it is found at the end. */
  lemma IndexOfAppended(xs: seq<string>, w: string)
    requires w !in xs
    ensures IndexOf(xs + [w], w) == |xs|
  {
    var k := IndexOf(xs + [w], w);
    if k < |xs| {
      assert false;
    }
  }

  /** Mounting twice is mounting once: the widget is never listed twice. */
  lemma MountIdempotent(s: Store, slot: int, sb: string, registered: set<string>, faults: Faults)
    requires MountWidget(s, slot, sb, registered, faults).Ok?
    ensures var m := MountWidget(s, slot, sb, registered, faults).value;
      MountWidget(m, slot, sb, registered, faults) == Ok(m)
  {
  }

  /** A mount keeps every sidebar free of duplicates. */
  lemma MountKeepsDistinct(s: Store, slot: int, sb: string, registered: set<string>, faults: Faults)
    ensures var r := MountWidget(s, slot, sb, registered, faults);
      r.Ok? && SidebarsDistinct(s) ==> SidebarsDistinct(r.value)
  {
    var r := MountWidget(s, slot, sb, registered, faults);
    if r.Ok? && SidebarsDistinct(s) && WidgetId(slot) !in ListOf(s, sb) {
      var xs := ListOf(s, sb) + [WidgetId(slot)];
      forall i, j | 0 <= i < j < |xs|
        ensures xs[i] != xs[j]
      {
        if j == |xs| - 1 {
          assert xs[i] in ListOf(s, sb);
        }
      }
    }
  }

  /** On lists without duplicates an unmount that saves takes the widget out
      of the sidebar completely, reports success, and keeps every list free
      of duplicates. */
  lemma UnmountKeepsDistinct(s: Store, slot: int, sb: string, faults: Faults)
    ensures SidebarsDistinct(s) ==> SidebarsDistinct(UnmountWidget(s, slot, sb, faults).0)
    ensures SidebarsDistinct(s) && sb in s.sidebars && sb !in faults.unsaved ==>
      WidgetId(slot) !in UnmountWidget(s, slot, sb, faults).0.sidebars[sb] && UnmountWidget(s, slot, sb, faults).1
  {
    var w := WidgetId(slot);
    if SidebarsDistinct(s) && sb in s.sidebars && w in s.sidebars[sb] && sb !in faults.unsaved {
      RemoveAtDistinct(s.sidebars[sb], IndexOf(s.sidebars[sb], w));
    }
  }

  // ---------------------------------------------------------------- where the widget is mounted

  /** `get_mounted_sidebars`: the sidebars listing the slot's widget, other
      than the inactive one. */
  function MountedSidebars(s: Store, slot: int): (r: set<string>)
    ensures forall sb :: sb in r <==> sb in s.sidebars && sb != Inactive && WidgetId(slot) in s.sidebars[sb]
  {
    set sb | sb in s.sidebars && sb != Inactive && WidgetId(slot) in s.sidebars[sb]
  }

  /** `cleanup_orphaned_instances`: a slot whose widget is mounted nowhere
      loses its instance settings. */
  function CleanupOrphanedInstances(s: Store, slot: int): (r: Store)
    ensures r.sidebars == s.sidebars
    ensures slot in r.instances <==> slot in s.instances && MountedSidebars(s, slot) != {}
    ensures forall k | k in s.instances && k != slot :: k in r.instances && r.instances[k] == s.instances[k]
    ensures r.instances.Keys <= s.instances.Keys
  {
    if MountedSidebars(s, slot) == {} && slot in s.instances then
      Store(s.sidebars, map k | k in s.instances && k != slot :: s.instances[k])
    else s
  }

  // ---------------------------------------------------------------- auto_mount

  /** The unmount loop of `auto_mount`: failures are ignored. */
  function UnmountEach(s: Store, slot: int, list: seq<string>, faults: Faults): (r: Store)
    ensures r.instances == s.instances && r.sidebars.Keys == s.sidebars.Keys
    ensures forall sb | sb in s.sidebars && sb !in list :: r.sidebars[sb] == s.sidebars[sb]
    ensures forall sb | sb in s.sidebars && sb in faults.unsaved :: r.sidebars[sb] == s.sidebars[sb]
    ensures forall sb | sb in s.sidebars && WidgetId(slot) !in s.sidebars[sb] :: WidgetId(slot) !in r.sidebars[sb]
    ensures SidebarsDistinct(s) ==> SidebarsDistinct(r)
    ensures SidebarsDistinct(s) ==>
      forall sb | sb in list && sb in s.sidebars && sb !in faults.unsaved :: WidgetId(slot) !in r.sidebars[sb]
    decreases |list|
  {
    if list == [] then s
    else
      var s1 := UnmountWidget(s, slot, list[0], faults).0;
      UnmountKeepsDistinct(s, slot, list[0], faults);
      UnmountEach(s1, slot, list[1..], faults)
  }

  /** The mount loop of `auto_mount`: the first failure stops it. */
  function MountEach(s: Store, slot: int, list: seq<string>, registered: set<string>, faults: Faults): (r: Result<Store, WidgetError>)
    ensures r.Ok? ==> s.sidebars.Keys <= r.value.sidebars.Keys
    ensures r.Ok? ==> forall sb | sb in list :: sb in r.value.sidebars && WidgetId(slot) in r.value.sidebars[sb]
    ensures r.Ok? ==> forall sb | sb in s.sidebars && sb !in list :: r.value.sidebars[sb] == s.sidebars[sb]
    ensures r.Ok? ==> forall sb | sb in r.value.sidebars && sb !in s.sidebars :: sb in list
    ensures r.Ok? ==> forall sb | sb in s.sidebars && WidgetId(slot) in s.sidebars[sb] :: WidgetId(slot) in r.value.sidebars[sb]
    ensures r.Ok? ==> forall k | k in s.instances && k != slot :: k in r.value.instances && r.value.instances[k] == s.instances[k]
    ensures r.Ok? && SidebarsDistinct(s) ==> SidebarsDistinct(r.value)
    ensures r == Err(InvalidSidebar) ==> exists sb :: sb in list && sb !in registered
    ensures r.Err? ==> r.error in {InvalidSidebar, SaveSidebarsFailed, UpdateInstanceFailed}
    ensures faults == NoFaults && (forall sb | sb in list :: sb in registered) ==> r.Ok?
    decreases |list|
  {
    if list == [] then Ok(s)
    else
      match MountWidget(s, slot, list[0], registered, faults)
      case Err(e) => Err(e)
      case Ok(s1) =>
        MountKeepsDistinct(s, slot, list[0], registered, faults);
        var r := MountEach(s1, slot, list[1..], registered, faults);
        assert list[0] in s1.sidebars && WidgetId(slot) in s1.sidebars[list[0]];
        r
  }

  /** The two binding lists name the same sidebars. */
  predicate SameBindings(a: seq<string>, b: seq<string>) {
    (forall x | x in a :: x in b) && (forall x | x in b :: x in a)
  }

  /** Identical bindings leave nothing to mount and nothing to unmount. */
  lemma SameBindingsMoveNothing(prior: seq<string>, bound: seq<string>)
    requires SameBindings(prior, bound)
    ensures Without(Dedupe(bound), Dedupe(prior)) == [] && Without(Dedupe(prior), Dedupe(bound)) == []
  {
    WithoutCovered(Dedupe(bound), Dedupe(prior));
    WithoutCovered(Dedupe(prior), Dedupe(bound));
  }

  /** The changing part of `auto_mount`: unmount from `toUnmount`, mount
      into `toMount`, then clean up the instance of a widget left mounted
      nowhere. A mount failure is reported as the error. */
  function Relocate(s: Store, slot: int, toMount: seq<string>, toUnmount: seq<string>,
                    registered: set<string>, faults: Faults): (r: Result<Store, WidgetError>)
    ensures r.Ok? ==> forall sb | sb in toMount :: sb in r.value.sidebars && WidgetId(slot) in r.value.sidebars[sb]
    ensures r.Ok? ==>
      forall sb | sb in s.sidebars && sb !in toMount && sb !in toUnmount ::
        sb in r.value.sidebars && r.value.sidebars[sb] == s.sidebars[sb]
    ensures r.Ok? && SidebarsDistinct(s) ==>
      forall sb | sb in toUnmount && sb !in toMount && sb in s.sidebars && sb !in faults.unsaved ::
        sb in r.value.sidebars && WidgetId(slot) !in r.value.sidebars[sb]
    ensures r.Ok? ==> (slot in r.value.instances ==> MountedSidebars(r.value, slot) != {})
    ensures r.Ok? ==>
      forall k | k in s.instances && k != slot :: k in r.value.instances && r.value.instances[k] == s.instances[k]
    ensures r.Ok? && SidebarsDistinct(s) ==> SidebarsDistinct(r.value)
    ensures r == Err(InvalidSidebar) ==> exists sb :: sb in toMount && sb !in registered
    ensures faults == NoFaults && (forall sb | sb in toMount :: sb in registered) ==> r.Ok?
  {
    var s1 := UnmountEach(s, slot, toUnmount, faults);
    match MountEach(s1, slot, toMount, registered, faults)
    case Err(e) => Err(e)
    case Ok(s2) => Ok(CleanupOrphanedInstances(s2, slot))
  }

  /** What `auto_mount` leaves behind: the store, and the error if any. */
  datatype Outcome = Outcome(store: Store, error: Option<WidgetError>)

  /** `auto_mount`: move a slot's widget from its prior sidebar bindings to
      its bound ones. Both lists are deduplicated; sidebars only in the prior
      list are unmounted first, then sidebars only in the bound list are
      mounted. A mount failure rolls back to the state before any change;
      otherwise the instance of a widget mounted nowhere is cleaned up.
      Identical bindings write nothing. */
  function AutoMount(s: Store, slot: int, prior: seq<string>, bound: seq<string>,
                     registered: set<string>, faults: Faults): (r: Outcome)
    ensures slot <= 0 ==> r == Outcome(s, Some(InvalidSlotId))
    ensures r.error.Some? ==> r.store == s
    ensures slot > 0 && SameBindings(prior, bound) ==> r == Outcome(s, None)
    ensures r.error.None? ==>
      forall sb | sb in bound && sb !in prior :: sb in r.store.sidebars && WidgetId(slot) in r.store.sidebars[sb]
    ensures r.error.None? ==>
      forall sb | sb in s.sidebars && !(sb in prior && sb !in bound) && !(sb in bound && sb !in prior) ::
        sb in r.store.sidebars && r.store.sidebars[sb] == s.sidebars[sb]
    ensures r.error.None? && SidebarsDistinct(s) ==>
      forall sb | sb in prior && sb !in bound && sb in s.sidebars && sb !in faults.unsaved ::
        sb in r.store.sidebars && WidgetId(slot) !in r.store.sidebars[sb]
    ensures r.error.None? && !SameBindings(prior, bound) ==>
      (slot in r.store.instances ==> MountedSidebars(r.store, slot) != {})
    ensures r.error.None? ==>
      forall k | k in s.instances && k != slot :: k in r.store.instances && r.store.instances[k] == s.instances[k]
    ensures r.error == Some(InvalidSidebar) ==> exists sb :: sb in bound && sb !in prior && sb !in registered
    ensures SidebarsDistinct(s) ==> SidebarsDistinct(r.store)
  {
    if slot <= 0 then Outcome(s, Some(InvalidSlotId))
    else
      var o, n := Dedupe(prior), Dedupe(bound);
      var toMount, toUnmount := Without(n, o), Without(o, n);
      if toMount == [] && toUnmount == [] then
        Outcome(s, None)
      else
        assert !SameBindings(prior, bound) by {
          if SameBindings(prior, bound) {
            SameBindingsMoveNothing(prior, bound);
            assert false;
          }
        }
        match Relocate(s, slot, toMount, toUnmount, registered, faults)
        case Err(e) =>
          Outcome(s, Some(e))
        case Ok(s2) =>
          Outcome(s2, None)
  }

  /** With no failing write and every newly bound sidebar registered,
      `auto_mount` succeeds for a valid slot id. */
  lemma AutoMountSucceeds(s: Store, slot: int, prior: seq<string>, bound: seq<string>, registered: set<string>)
    requires slot > 0
    requires forall sb | sb in bound && sb !in prior :: sb in registered
    ensures AutoMount(s, slot, prior, bound, registered, NoFaults).error.None?
  {
    var o, n := Dedupe(prior), Dedupe(bound);
    var toMount := Without(n, o);
    assert forall sb | sb in toMount :: sb in registered;
  }
}
