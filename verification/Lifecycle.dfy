/**
 * The workspace and Space lifecycle as a state machine: one step per complete snapshot, command
 * or failure report. Each function is one stage of the engine's snapshot pass.
 *
 * Time is in milliseconds and one reading is taken per step. `Visit` stands for the iteration
 * order of the engine's hash maps, which nothing below may rely on.
 */
module Lifecycle {
  import opened Basics
  import opened Geometry
  import opened BspNode
  import opened Observed
  import opened Workspace
  import opened Remap
  import opened SpaceOrder

  type Layout = Option<Node>

  const CREATION_DEADLINE: nat := 10_000
  const CREATION_UNCERTAIN_GRACE: nat := 10_000
  const WINDOW_LAST_SPACE_TTL: nat := 10_000
  const DYNAMIC_GRACE: nat := 2_000
  const EXTERNAL_GRACE: nat := 3_000
  const PLACEMENT_RETRY: nat := 500
  const PLACEMENT_DEADLINE: nat := 10_000
  const U32_MAX: nat := 0xFFFF_FFFF

  datatype Capabilities = Capabilities(createSpace: bool, destroySpace: bool, reorderSpace: bool)

  datatype Observation = Awaiting(deadline: Instant) | Uncertain(since: Instant)

  /** A CreateSpace in flight, and the Spaces that existed when it was requested. */
  datatype Awaited = Awaited(key: Key, display: DisplayId, before: set<SpaceId>, observation: Observation)

  datatype Request = Request(key: Key, display: DisplayId)

  datatype Reservation = Reservation(order: seq<SpaceId>, retryAt: Instant, deadline: Instant)

  datatype Selector = EveryDisplay | MainDisplay | OneDisplay(id: DisplayId) | NoDisplay

  datatype Template = Template(name: string, display: Selector, persistent: bool)

  datatype Snapshot = Snapshot(
    windows: map<WindowId, Window>, spaces: map<SpaceId, Space>, displays: map<DisplayId, Display>, complete: bool)
  {
    ghost predicate WellKeyed() {
      && (forall w | w in windows :: windows[w].id == w)
      && (forall s | s in spaces :: spaces[s].id == s)
      && (forall d | d in displays :: displays[d].id == d)
    }
  }

  /**
   * The orders things happen to be walked in: hash maps of displays, workspaces and parked trees,
   * and displays by their place on the desk when the strip is reserved.
   */
  datatype Visit = Visit(displays: seq<DisplayId>, strips: seq<DisplayId>, keys: seq<Key>, parked: seq<Key>)

  datatype State = State(
    caps: Capabilities,
    templates: seq<Template>,
    view: View,
    layouts: map<SpaceId, Layout>,
    reg: Registry,
    focusQueue: seq<(Key, nat)>,
    moveQueue: seq<(WindowId, Key)>,
    awaited: seq<Awaited>,
    requests: seq<Request>,
    pendingDestroy: map<SpaceId, Key>,
    topologyDestroy: Option<SpaceId>,
    placement: Option<Reservation>,
    grace: map<Key, Instant>,
    external: map<SpaceId, Instant>,
    initialized: bool,
    parked: map<Key, Layout>,
    lastSpace: map<WindowId, (SpaceId, Instant)>,
    synced: Option<set<DisplayId>>)
  {
    /** Some workspace shows or parks the Space. */
    predicate Known(s: SpaceId) { exists k | k in reg :: reg[k].Holds(s) }

    /** Some workspace shows the Space. */
    predicate Claimed(s: SpaceId) { exists k | k in reg :: reg[k].ActiveSpace() == Some(s) }

    /** The Space showing a workspace, by key. */
    function BackingOf(k: Key): Option<SpaceId> {
      if k in reg then reg[k].ActiveSpace() else None
    }

    function AllTrees(): Trees { Trees(layouts, parked) }

    /** A creation for the key is queued or in flight. */
    predicate Expecting(k: Key) {
      (exists a | a in awaited :: a.key == k) || (exists r | r in requests :: r.key == k)
    }

    /** Nothing that changes Spaces is in flight. */
    predicate Quiet() {
      awaited == [] && pendingDestroy == map[] && topologyDestroy == None && placement == None
    }
  }

  type Outcome = (State, seq<Action>)

  /** What is observed and which mutations are in flight, untouched. */
  ghost predicate SameFlight(a: State, b: State) {
    && a.view == b.view && a.caps == b.caps && a.templates == b.templates
    && a.awaited == b.awaited && a.pendingDestroy == b.pendingDestroy
    && a.topologyDestroy == b.topologyDestroy && a.placement == b.placement && a.initialized == b.initialized
  }

  ghost predicate NoTopology(actions: seq<Action>) {
    forall a | a in actions :: !a.IsTopology()
  }

  // ------------------------------------------------------------ small helpers

  /** The Spaces showing some workspaces. */
  function SpacesOf(reg: Registry, ks: set<Key>): set<SpaceId> {
    set k | k in ks && k in reg && reg[k].ActiveSpace().Some? :: reg[k].ActiveSpace().value
  }

  /** Forget workspaces and everything they own. */
  function RemoveAll(s: State, ks: set<Key>): (r: State)
    ensures SameFlight(s, r) && r.requests == s.requests && r.reg == s.reg - ks
  {
    s.(reg := s.reg - ks, layouts := s.layouts - SpacesOf(s.reg, ks), parked := s.parked - ks, grace := s.grace - ks,
       focusQueue := KeepFocus(s.focusQueue, ks), moveQueue := KeepMoves(s.moveQueue, ks))
  }

  function KeepFocus(q: seq<(Key, nat)>, gone: set<Key>): (r: seq<(Key, nat)>) {
    if q == [] then []
    else (if q[0].0 in gone then [] else [q[0]]) + KeepFocus(q[1..], gone)
  }

  function KeepMoves(q: seq<(WindowId, Key)>, gone: set<Key>): (r: seq<(WindowId, Key)>) {
    if q == [] then []
    else (if q[0].1 in gone then [] else [q[0]]) + KeepMoves(q[1..], gone)
  }

  /** Clear a dead binding; the tree is parked under the workspace's key. */
  function ClearStale(s: State, k: Key): (r: State)
    ensures SameFlight(s, r) && r.requests == s.requests
    ensures r.reg == if k in s.reg then s.reg[k := s.reg[k].(backing := None)] else s.reg
  {
    var old_ := s.BackingOf(k);
    var s1 :=
      if old_.Some? && old_.value in s.layouts
      then s.(layouts := s.layouts - {old_.value}, parked := s.parked[k := s.layouts[old_.value]])
      else s;
    if k in s.reg then s1.(reg := s1.reg[k := s1.reg[k].(backing := None)]) else s1
  }

  /** The next free ordinal. */
  ghost function NextOrdinal(reg: Registry): (n: nat)
    ensures forall k | k in reg :: reg[k].ordinal < n
    ensures n == 0 || exists k :: k in reg && reg[k].ordinal + 1 == n
    decreases |reg|
  {
    if reg == map[] then 0
    else
      var k :| k in reg;
      var rest := NextOrdinal(reg - {k});
      assert forall j | j in reg && j != k :: j in reg - {k} && reg[j] == (reg - {k})[j];
      if reg[k].ordinal + 1 > rest then reg[k].ordinal + 1 else rest
  }

  /** Register a name on a display as a dynamic workspace, if it is unknown there. */
  ghost function EnsureDynamic(s: State, k: Key): (r: State)
    ensures SameFlight(s, r) && r.requests == s.requests
    ensures k in r.reg && (k in s.reg ==> r == s) && (k !in s.reg ==> r.reg[k].backing == None && r.reg - {k} == s.reg)
  {
    if k in s.reg then s
    else s.(reg := s.reg[k := Entry(k.name, k.display, false, true, NextOrdinal(s.reg), None, None)])
  }

  /** To the nearest whole number, halves away from zero. */
  function Rounded(v: real): int { if v >= 0.0 then (v + 0.5).Floor else -((-v + 0.5).Floor) }

  /** Left to right, then top to bottom, to the nearest point. */
  predicate CornerLe(a: Rect, b: Rect) {
    Rounded(a.x) < Rounded(b.x) || (Rounded(a.x) == Rounded(b.x) && Rounded(a.y) <= Rounded(b.y))
  }

  /** Every observed display once, by the corner of its frame; displays at one corner come in any order. */
  ghost predicate StripWalk(displays: map<DisplayId, Display>, strips: seq<DisplayId>) {
    && NoDup(strips) && (forall d :: d in strips <==> d in displays)
    && forall i, j | 0 <= i < j < |strips| :: CornerLe(displays[strips[i]].frame, displays[strips[j]].frame)
  }

  /** The native order every workspace's own Space should end up in. */
  ghost function LogicalOrder(reg: Registry, displays: seq<DisplayId>): seq<SpaceId> {
    if displays == [] then []
    else
      KeysForLists(reg, displays[0]);
      NormalSpaces(reg, KeysFor(reg, displays[0])) + LogicalOrder(reg, displays[1..])
  }

  function NormalSpaces(reg: Registry, ks: seq<Key>): seq<SpaceId>
    requires forall k | k in ks :: k in reg
  {
    if ks == [] then []
    else
      var b := reg[ks[0]].backing;
      (if b.Some? && b.value.Normal? then [b.value.space] else []) + NormalSpaces(reg, ks[1..])
  }

  ghost function ReserveOrder(s: State, now: Instant, visit: Visit): (r: State)
    ensures SameFlight(s, r.(placement := s.placement)) && r.placement.Some? && r == s.(placement := r.placement)
  {
    s.(placement := Some(Reservation(LogicalOrder(s.reg, visit.strips), now, now + PLACEMENT_DEADLINE)))
  }

  // --------------------------------------------------- stages of a snapshot pass

  /** Every ordinary Space known before is gone and others have taken their place. */
  predicate IsReset(view: View, snap: Snapshot) {
    && snap.complete
    && (exists s | s in view.spaces :: view.spaces[s].Ordinary())
    && (exists s | s in snap.spaces :: snap.spaces[s].Ordinary())
    && (forall s | s in view.spaces && view.spaces[s].Ordinary() :: s !in snap.spaces)
  }

  function Requeue(awaited: seq<Awaited>, requests: seq<Request>): seq<Request>
    decreases |awaited|
  {
    if awaited == [] then requests
    else
      var a := awaited[|awaited| - 1];
      Requeue(awaited[..|awaited| - 1],
              if exists r | r in requests :: r.key == a.key then requests else [Request(a.key, a.display)] + requests)
  }

  /** A topology reset voids creations in flight; they are queued again, in front. */
  function VoidReservations(s: State): State {
    s.(initialized := false, external := map[], requests := Requeue(s.awaited, s.requests), awaited := [])
  }

  function Observe(s: State, snap: Snapshot): State {
    if snap.complete then
      s.(view := s.view.(windows := snap.windows, spaces := snap.spaces, displays := snap.displays, refreshRequired := false))
    else
      s.(view := s.view.(windows := s.view.windows + snap.windows, spaces := s.view.spaces + snap.spaces,
                         displays := s.view.displays + snap.displays))
  }

  function TargetsOf(t: Template, view: View, order: seq<DisplayId>): seq<DisplayId> {
    match t.display
    case EveryDisplay => order
    case MainDisplay => FirstMain(view, order)
    case OneDisplay(id) => if id in view.displays then [id] else []
    case NoDisplay => []
  }

  function FirstMain(view: View, order: seq<DisplayId>): (r: seq<DisplayId>)
    ensures forall d | d in r :: d in order
  {
    if order == [] then []
    else if order[0] in view.displays && view.displays[order[0]].isMain then [order[0]]
    else FirstMain(view, order[1..])
  }

  function Instantiate(reg: Registry, next: nat, t: Template, targets: seq<DisplayId>): (Registry, nat)
    decreases |targets|
  {
    if targets == [] then (reg, next)
    else
      var k := Key(targets[0], t.name);
      if k in reg then
        Instantiate(reg[k := reg[k].(persistent := t.persistent, dynamic := false)], next, t, targets[1..])
      else
        Instantiate(reg[k := Entry(t.name, targets[0], t.persistent, false, next, None, None)], next + 1, t, targets[1..])
  }

  function InstantiateAll(reg: Registry, next: nat, ts: seq<Template>, view: View, order: seq<DisplayId>): Registry
    decreases |ts|
  {
    if ts == [] then reg
    else
      var (reg', next') := Instantiate(reg, next, ts[0], TargetsOf(ts[0], view, order));
      InstantiateAll(reg', next', ts[1..], view, order)
  }

  function OnDisplays(reg: Registry, displays: set<DisplayId>): (r: Registry)
    ensures forall k | k in r :: k in reg && r[k] == reg[k]
  {
    map k | k in reg && reg[k].display in displays :: reg[k]
  }

  /** Bring configured names onto the observed displays; drop what belongs to a missing display. */
  ghost function SyncConfig(s: State, visit: Visit): (r: State)
    ensures SameFlight(s, r) && r.requests == s.requests && r.AllTrees() == s.AllTrees() && r.external == s.external
  {
    hide NextOrdinal, InstantiateAll, OnDisplays;
    if s.synced == Some(s.view.displays.Keys) then s
    else
      var reg := InstantiateAll(s.reg, NextOrdinal(s.reg), s.templates, s.view, visit.displays);
      s.(reg := OnDisplays(reg, s.view.displays.Keys), synced := Some(s.view.displays.Keys))
  }

  /** The fullscreen Spaces workspaces already show. */
  function OwnedFullscreen(s: State): set<SpaceId> {
    set f | f in s.view.spaces && s.Claimed(f) && s.view.spaces[f].isFullscreen && !s.view.spaces[f].isSystem
  }

  /** The window went native fullscreen out of `home`, as far as this and the last snapshots show. */
  predicate CameFrom(s: State, previous: map<WindowId, Window>, w: WindowId, home: SpaceId, now: Instant) {
    if w in previous && previous[w].space.Some? then previous[w].space.value == home
    else w in s.lastSpace && s.lastSpace[w].0 == home && now < s.lastSpace[w].1 + WINDOW_LAST_SPACE_TTL
  }

  function Entering(s: State, previous: map<WindowId, Window>, home: SpaceId, now: Instant): set<WindowId> {
    set w | w in s.view.windows && s.view.windows[w].space.Some?
            && (var f := s.view.windows[w].space.value;
                f in s.view.spaces && s.view.spaces[f].isFullscreen && !s.view.spaces[f].isSystem && f !in OwnedFullscreen(s))
            && CameFrom(s, previous, w, home, now)
  }

  predicate FullscreenLost(s: State, b: Backing)
    requires b.Fullscreen?
  {
    || b.window !in s.view.windows
    || b.fullscreenSpace !in s.view.spaces
    || !s.view.spaces[b.fullscreenSpace].isFullscreen
    || s.view.spaces[b.fullscreenSpace].isSystem
  }

  ghost function LeastWindow(ws: set<WindowId>): (w: WindowId)
    requires ws != {}
    ensures w in ws && forall v | v in ws :: w <= v
  {
    NatTotal(ws);
    Least(ws, NatLe)
  }

  /** Fullscreen substitution for one workspace: leave, enter, or stay. */
  ghost function Substituted(s: State, previous: map<WindowId, Window>, now: Instant, e: Entry): Entry {
    if e.backing.None? then e
    else match e.backing.value
      case Fullscreen(f, home, w) =>
        if !FullscreenLost(s, e.backing.value) then e
        else if s.view.Ordinary(home) then e.(backing := Some(Normal(home)))
        else e.(backing := None)
      case Normal(home) =>
        var entering := Entering(s, previous, home, now);
        if entering == {} then e
        else
          var w := LeastWindow(entering);
          e.(backing := Some(Fullscreen(s.view.windows[w].space.value, home, w)))
  }

  function Restored(s: State): set<Key> {
    set k | k in s.reg && s.reg[k].IsFullscreen() && FullscreenLost(s, s.reg[k].backing.value)
  }

  ghost function FullscreenRegistry(s: State, previous: map<WindowId, Window>, now: Instant): Registry {
    map k | k in s.reg :: Substituted(s, previous, now, s.reg[k])
  }

  ghost function ReconcileFullscreen(s: State, previous: map<WindowId, Window>, now: Instant, visit: Visit): (r: State)
    ensures SameFlight(s, r.(placement := s.placement)) && (s.placement.Some? ==> r.placement.Some?) && r.requests == s.requests
    ensures r.reg == FullscreenRegistry(s, previous, now)
  {
    hide Substituted, Restored, ReserveOrder, FullscreenRegistry;
    var restored := Restored(s);
    var s1 := s.(reg := FullscreenRegistry(s, previous, now),
                 grace := s.grace + map k | k in restored :: now + DYNAMIC_GRACE);
    if restored == {} then s1 else ReserveOrder(s1, now, visit)
  }

  /** Where each window was last seen; windows that are gone are remembered for a while. */
  function LastSeen(view: View, before: map<WindowId, (SpaceId, Instant)>, now: Instant): map<WindowId, (SpaceId, Instant)> {
    var all := before + map w | w in view.windows && view.windows[w].space.Some? :: (view.windows[w].space.value, now);
    map w | w in all && (w in view.windows || now < all[w].1 + WINDOW_LAST_SPACE_TTL) :: all[w]
  }

  function NoteWindowSpaces(s: State, now: Instant): (r: State)
    ensures SameFlight(s, r) && r.requests == s.requests && r.reg == s.reg
  {
    hide LastSeen;
    s.(lastSpace := LastSeen(s.view, s.lastSpace, now))
  }

  /** Workspaces whose destroyed Space has been seen to go. */
  function Confirmed(s: State): set<Key> {
    set p | p in s.pendingDestroy && p !in s.view.spaces :: s.pendingDestroy[p]
  }

  function ConfirmDestroys(s: State): (r: State)
    ensures SameFlight(s, r.(pendingDestroy := s.pendingDestroy, topologyDestroy := s.topologyDestroy)) && r.requests == s.requests
    ensures r.pendingDestroy == map p | p in s.pendingDestroy && p in s.view.spaces :: s.pendingDestroy[p]
    ensures r.topologyDestroy == if s.topologyDestroy.Some? && s.topologyDestroy.value !in s.view.spaces then None else s.topologyDestroy
    ensures r.reg == s.reg - Confirmed(s)
  {
    var gone := set p | p in s.pendingDestroy && p !in s.view.spaces;
    RemoveAll(s.(pendingDestroy := s.pendingDestroy - gone,
                 topologyDestroy := if s.topologyDestroy.Some? && s.topologyDestroy.value !in s.view.spaces then None
                                    else s.topologyDestroy), Confirmed(s))
  }

  predicate Vanished(s: State, e: Entry) { e.ActiveSpace().Some? && e.ActiveSpace().value !in s.view.spaces }

  /** Volatile workspaces whose Space was removed outside the engine's own flow. */
  function Retire(s: State): (r: State)
    ensures SameFlight(s, r) && r.requests == s.requests
    ensures forall k | k in r.reg :: k in s.reg && r.reg[k] == s.reg[k]
  {
    RemoveAll(s, set k | k in s.reg && !s.reg[k].persistent && Vanished(s, s.reg[k]))
  }

  /** A queue asked to hold a request for the workspace, once. */
  function Requested(requests: seq<Request>, k: Key, d: DisplayId): seq<Request> {
    if exists r | r in requests :: r.key == k then requests else requests + [Request(k, d)]
  }

  /** One persistent workspace whose Space is gone: park the tree, ask for a new Space. */
  function ParkOne(s: State, k: Key): (r: State)
    ensures SameFlight(s, r)
  {
    hide ClearStale, Requested;
    if k !in s.reg || !s.reg[k].persistent || !Vanished(s, s.reg[k]) then s
    else ClearStale(s, k).(requests := Requested(s.requests, k, s.reg[k].display))
  }

  function ParkVanished(s: State, ks: seq<Key>): (r: State)
    ensures SameFlight(s, r)
    decreases |ks|
  {
    hide ParkOne;
    if ks == [] then s else ParkVanished(ParkOne(s, ks[0]), ks[1..])
  }

  /** `x` is a Space the reservation may take: new, ordinary, on its display and shown by nobody. */
  predicate MayTake(s: State, a: Awaited, x: SpaceId) {
    s.view.Ordinary(x) && !s.Claimed(x) && x !in a.before && s.view.spaces[x].display == a.display
  }

  function Candidates(s: State, a: Awaited): set<Space> {
    set x | x in s.view.spaces && MayTake(s, a, x) :: s.view.spaces[x]
  }

  ghost function FirstSlot(xs: set<Space>): (x: Space)
    requires xs != {} && forall a, b | a in xs && b in xs && a.id == b.id :: a == b
    ensures x in xs && forall y | y in xs :: SlotLe(x, y)
  {
    SlotTotal(xs);
    Least(xs, SlotLe)
  }

  function Aged(a: Awaited, now: Instant): Awaited {
    if a.observation.Awaiting? && now >= a.observation.deadline then a.(observation := Uncertain(now)) else a
  }

  predicate Expired(a: Awaited, now: Instant) {
    a.observation.Uncertain? && now >= a.observation.since + CREATION_UNCERTAIN_GRACE
  }

  /** The workspace takes the Space made for it; the strip is put back in order. */
  ghost function BindTo(s: State, k: Key, x: Space, now: Instant, visit: Visit): (r: State)
    requires k in s.reg
    ensures SameFlight(s, r.(placement := s.placement)) && r.placement.Some? && r.requests == s.requests
    ensures r.reg == s.reg[k := s.reg[k].(backing := Some(Normal(x.id)), lastPosition := Some(x.position))]
  {
    hide ReserveOrder;
    ReserveOrder(
      s.(reg := s.reg[k := s.reg[k].(backing := Some(Normal(x.id)), lastPosition := Some(x.position))],
         external := s.external - {x.id}, grace := s.grace[k := now + DYNAMIC_GRACE]), now, visit)
  }

  /** A reservation that ran out takes the workspace it was for along, if that never got a Space. */
  function Released(s: State, k: Key): (r: State)
    ensures SameFlight(s, r) && r.requests == s.requests && (r.reg == s.reg || r.reg == s.reg - {k})
  {
    hide RemoveAll;
    if k in s.reg && s.reg[k].dynamic && s.reg[k].backing == None then RemoveAll(s, {k}) else s
  }

  /** One awaited creation against one snapshot: released, dropped, bound, or still awaited. */
  ghost function BindOne(s: State, old_: Awaited, now: Instant, visit: Visit): (r: State)
    requires s.view.WellKeyed()
    ensures SameFlight(s, r.(awaited := s.awaited, placement := s.placement)) && r.requests == s.requests
    ensures (s.placement.Some? ==> r.placement.Some?) && (r.awaited == s.awaited || r.awaited == s.awaited + [Aged(old_, now)])
    ensures r.awaited != s.awaited ==> !Expired(Aged(old_, now), now) && r.reg == s.reg
  {
    hide BindTo, Released, Candidates;
    var a := Aged(old_, now);
    if Expired(a, now) then Released(s, a.key)
    else if a.key !in s.reg || s.reg[a.key].backing.Some? then s
    else
      CandidatesKeyed(s, a);
      if Candidates(s, a) == {} then s.(awaited := s.awaited + [a])
      else BindTo(s, a.key, FirstSlot(Candidates(s, a)), now, visit)
  }

  lemma CandidatesKeyed(s: State, a: Awaited)
    requires s.view.WellKeyed()
    ensures forall x | x in Candidates(s, a) :: x.id in s.view.spaces && s.view.spaces[x.id] == x && MayTake(s, a, x.id)
    ensures forall x, y | x in Candidates(s, a) && y in Candidates(s, a) && x.id == y.id :: x == y
  {
  }

  ghost function BindAll(s: State, todo: seq<Awaited>, now: Instant, visit: Visit): (r: State)
    requires s.view.WellKeyed()
    ensures SameFlight(s, r.(awaited := s.awaited, placement := s.placement)) && r.requests == s.requests
    ensures (s.placement.Some? ==> r.placement.Some?) && |r.awaited| <= |s.awaited| + |todo|
    decreases |todo|
  {
    if todo == [] then s else BindAll(BindOne(s, todo[0], now, visit), todo[1..], now, visit)
  }

  ghost function BindAwaited(s: State, now: Instant, visit: Visit): (r: State)
    requires s.view.WellKeyed()
    ensures SameFlight(s, r.(awaited := s.awaited, placement := s.placement)) && r.requests == s.requests
    ensures (s.placement.Some? ==> r.placement.Some?) && |r.awaited| <= |s.awaited|
  {
    BindAll(s.(awaited := []), s.awaited, now, visit)
  }

  // ------------------------------------------------------- Spaces made by others

  function Digit(n: nat): char
    requires n < 10
  {
    ['0', '1', '2', '3', '4', '5', '6', '7', '8', '9'][n]
  }

  function ToText(n: nat): string {
    if n < 10 then [Digit(n)] else ToText(n / 10) + [Digit(n % 10)]
  }

  ghost function MaxNumber(reg: Registry, d: DisplayId): (m: nat)
    ensures forall k | k in reg && reg[k].display == d && ParseU32(reg[k].name).Some? :: ParseU32(reg[k].name).value <= m
    ensures m <= U32_MAX
    ensures m == 0 || exists k :: k in reg && reg[k].display == d && ParseU32(reg[k].name) == Some(m)
    decreases |reg|
  {
    if reg == map[] then 0
    else
      var k :| k in reg;
      var rest := MaxNumber(reg - {k}, d);
      assert forall j | j in reg && j != k :: j in reg - {k} && reg[j] == (reg - {k})[j];
      if reg[k].display == d && ParseU32(reg[k].name).Some? && ParseU32(reg[k].name).value > rest
      then ParseU32(reg[k].name).value else rest
  }

  /** The first unused number from `n` up, if the numbers do not run out. */
  function FreeNumber(reg: Registry, d: DisplayId, n: nat): (r: Option<nat>)
    requires n <= U32_MAX
    ensures r.Some? ==> n <= r.value <= U32_MAX && Key(d, ToText(r.value)) !in reg
    ensures forall m | n <= m < (if r.Some? then r.value else U32_MAX + 1) :: Key(d, ToText(m)) in reg
    decreases U32_MAX - n
  {
    if Key(d, ToText(n)) !in reg then Some(n)
    else if n == U32_MAX then None
    else FreeNumber(reg, d, n + 1)
  }

  /** Register a name, if need be, and let it show a Space someone else made. */
  ghost function AdoptAs(s: State, k: Key, x: SpaceId): (r: State)
    ensures SameFlight(s, r) && r.requests == s.requests
  {
    hide NextOrdinal;
    var s1 := EnsureDynamic(s, k);
    s1.(reg := s1.reg[k := s1.reg[k].(backing := Some(Normal(x)))], external := s1.external - {x})
  }

  /** The name past the highest number a display's workspaces go by, if the numbers do not run out. */
  ghost function NextName(reg: Registry, d: DisplayId): (k: Option<Key>)
    ensures k.Some? ==> k.value !in reg && k.value.display == d
  {
    hide MaxNumber, ToText;
    var top := MaxNumber(reg, d);
    var n := FreeNumber(reg, d, if top < U32_MAX then top + 1 else U32_MAX);
    if n.None? then None else Some(Key(d, ToText(n.value)))
  }

  /** A Space someone else made extends its display's strip. */
  ghost function AdoptOne(s: State, x: SpaceId): (r: State)
    requires x in s.view.spaces
    ensures SameFlight(s, r) && r.requests == s.requests
  {
    hide NextName, AdoptAs;
    var k := NextName(s.reg, s.view.spaces[x].display);
    if k.None? then s else AdoptAs(s, k.value, x)
  }

  ghost function AdoptAll(s: State, xs: seq<SpaceId>): (r: State)
    requires forall x | x in xs :: x in s.view.spaces
    ensures SameFlight(s, r) && r.requests == s.requests
    decreases |xs|
  {
    if xs == [] then s else AdoptAll(AdoptOne(s, xs[0]), xs[1..])
  }

  function Ids(xs: seq<Space>): (ids: seq<SpaceId>)
    ensures |ids| == |xs| && forall i | 0 <= i < |xs| :: ids[i] == xs[i].id
  {
    seq(|xs|, i requires 0 <= i < |xs| => xs[i].id)
  }

  /** External Spaces somebody uses, in slot order. */
  ghost function Adoptable(s: State): (xs: seq<SpaceId>)
    requires s.view.WellKeyed()
    ensures forall x | x in xs :: x in s.external && x in s.view.spaces && (s.view.spaces[x].focused || s.view.Occupied(x))
    ensures NoDup(xs)
  {
    var used := set x | x in s.external && x in s.view.spaces && (s.view.spaces[x].focused || s.view.Occupied(x)) :: s.view.spaces[x];
    SlotTotal(used);
    SortedIsOrdered(used, SlotLe);
    var q := Sorted(used, SlotLe);
    assert forall i | 0 <= i < |q| :: q[i] in Elements(q);
    Ids(q)
  }

  /** External Spaces that are still there and still nobody's. */
  function StillExternal(s: State): map<SpaceId, Instant> {
    map x | x in s.external && x in s.view.spaces && !s.Known(x) :: s.external[x]
  }

  /** Ordinary Spaces nobody knows. */
  function Strangers(s: State): set<SpaceId> {
    set x | x in s.view.spaces && s.view.spaces[x].Ordinary() && !s.Known(x)
  }

  /** Give every ordinary Space nobody knows a grace period, unless it has one. */
  function GraceSurplus(s: State, now: Instant): (r: State)
    ensures SameFlight(s, r) && r.requests == s.requests && r == s.(external := r.external)
    ensures r.external.Keys == s.external.Keys + Strangers(s)
  {
    hide Strangers;
    var surplus := map x | x in Strangers(s) :: now + EXTERNAL_GRACE;
    assert (surplus + s.external).Keys == s.external.Keys + Strangers(s);
    s.(external := surplus + s.external)
  }

  ghost function ObserveExternal(s: State, now: Instant): (r: State)
    requires s.view.WellKeyed()
    ensures SameFlight(s.(initialized := true), r) && r.requests == s.requests
  {
    var s1 := s.(external := StillExternal(s));
    if !s.initialized then s1.(initialized := true)
    else
      var s2 := GraceSurplus(s1, now);
      if s.awaited != [] then s2 else AdoptAll(s2, Adoptable(s2))
  }

  // ------------------------------------------------------------------ placement

  /** The reserved Spaces one display shows, in logical order. */
  function DesiredOn(order: seq<SpaceId>, view: View, d: DisplayId): seq<SpaceId> {
    if order == [] then []
    else (if order[0] in view.spaces && view.spaces[order[0]].display == d then [order[0]] else [])
         + DesiredOn(order[1..], view, d)
  }

  predicate BeforeInView(view: View, a: SpaceId, b: SpaceId)
    requires a in view.spaces && b in view.spaces
  {
    view.spaces[a].position < view.spaces[b].position
    || (view.spaces[a].position == view.spaces[b].position && a <= b)
  }

  function InsertByPosition(view: View, x: SpaceId, q: seq<SpaceId>): (r: seq<SpaceId>)
    requires x in view.spaces && forall y | y in q :: y in view.spaces
    ensures |r| == |q| + 1 && forall y | y in r :: y in view.spaces
  {
    if q == [] || BeforeInView(view, x, q[0]) then [x] + q
    else [q[0]] + InsertByPosition(view, x, q[1..])
  }

  /** The same Spaces in native order. */
  function ByPosition(view: View, q: seq<SpaceId>): (r: seq<SpaceId>)
    requires forall y | y in q :: y in view.spaces
    ensures |r| == |q| && forall y | y in r :: y in view.spaces
  {
    if q == [] then [] else InsertByPosition(view, q[0], ByPosition(view, q[1..]))
  }

  lemma {:induction false} DesiredObserved(order: seq<SpaceId>, view: View, d: DisplayId)
    ensures forall x | x in DesiredOn(order, view, d) :: x in order && x in view.spaces && view.spaces[x].display == d
  {
    if order != [] {
      DesiredObserved(order[1..], view, d);
    }
  }

  /** The correction one display needs, if any. */
  function MoveOn(order: seq<SpaceId>, view: View, d: DisplayId): Option<Move> {
    DesiredObserved(order, view, d);
    var desired := DesiredOn(order, view, d);
    NextMove(ByPosition(view, desired), desired)
  }

  /** The correction for the first display, by id, that needs one. */
  function FirstMove(order: seq<SpaceId>, view: View, displays: seq<DisplayId>): Option<Move> {
    if displays == [] then None
    else if MoveOn(order, view, displays[0]).Some? then MoveOn(order, view, displays[0])
    else FirstMove(order, view, displays[1..])
  }

  /** Displays any reserved Space is on. */
  function OrderedDisplays(order: seq<SpaceId>, view: View): set<DisplayId> {
    set x | x in order && x in view.spaces :: view.spaces[x].display
  }

  ghost function NextPlacementMove(order: seq<SpaceId>, view: View): Option<Move> {
    FirstMove(order, view, Ascending(OrderedDisplays(order, view)))
  }

  /** One look at the reservation: settled, given up, still waiting, or corrected once more. */
  ghost function PlacementPass(p: Reservation, view: View, canReorder: bool, now: Instant): (r: (Option<Reservation>, seq<Action>))
    ensures r.1 == [] || (r.0.Some? && |r.1| == 1 && r.1[0].MoveSpace?)
    ensures r.0.Some? ==> r.0.value.order == p.order && r.0.value.deadline == p.deadline
  {
    var m := NextPlacementMove(p.order, view);
    if m.None? || !canReorder || now >= p.deadline then (None, [])
    else if now < p.retryAt then (Some(p), [])
    else (Some(p.(retryAt := now + PLACEMENT_RETRY)), [MoveSpace(m.value.space, m.value.after)])
  }

  ghost function ReconcilePlacement(s: State, now: Instant): (r: Outcome)
    ensures r.0 == s.(placement := r.0.placement)
    ensures r.1 == [] || (r.0.placement.Some? && |r.1| == 1 && r.1[0].MoveSpace?)
  {
    hide PlacementPass;
    if s.placement.None? then (s, [])
    else
      var (p, actions) := PlacementPass(s.placement.value, s.view, s.caps.reorderSpace, now);
      (s.(placement := p), actions)
  }

  // ---------------------------------------------------------- bindings and trees

  /** Workspaces still waiting for their Space take no slot. */
  function Held(s: State): set<Key> {
    set k | k in s.reg && s.Expecting(k)
  }

  function SlotSpaces(s: State): map<SpaceId, Space> {
    map x | x in s.view.spaces && x !in s.external :: s.view.spaces[x]
  }

  ghost function RemapSlots(s: State, visit: Visit): (r: (State, seq<RemapMove>))
    requires s.view.WellKeyed()
    ensures r.0 == s.(reg := r.0.reg)
  {
    if s.placement.Some? then (s, [])
    else
      var free := s.reg - Held(s);
      var after := Remapped(free, SlotSpaces(s), s.view.displays.Keys);
      (s.(reg := s.reg + after), RemapMoves(free, after, visit.displays))
  }

  /** Where layout trees are kept: on Spaces, and under the keys of workspaces without one. */
  datatype Trees = Trees(layouts: map<SpaceId, Layout>, parked: map<Key, Layout>)

  /** Carry one workspace's tree along with its Space, or park it when it got none. */
  function MoveTree(t: Trees, spaces: set<SpaceId>, m: RemapMove): Trees {
    if m.from.None? || m.from.value in spaces || m.from.value !in t.layouts then t
    else if m.from.value == m.to then Trees(t.layouts - {m.to}, t.parked[m.key := t.layouts[m.to]])
    else t.(layouts := (t.layouts - {m.from.value})[m.to := t.layouts[m.from.value]])
  }

  function MoveTrees(t: Trees, spaces: set<SpaceId>, moves: seq<RemapMove>): Trees
    decreases |moves|
  {
    if moves == [] then t else MoveTrees(MoveTree(t, spaces, moves[0]), spaces, moves[1..])
  }

  /** The Space showing a workspace. */
  function ShownOn(reg: Registry, k: Key): Option<SpaceId> {
    if k in reg then reg[k].ActiveSpace() else None
  }

  /** Parked trees whose workspace has a Space again go back to it. */
  function Reattach(t: Trees, reg: Registry, ks: seq<Key>): Trees
    decreases |ks|
  {
    if ks == [] then t
    else if ks[0] in t.parked && ShownOn(reg, ks[0]).Some? then
      Reattach(Trees(t.layouts[ShownOn(reg, ks[0]).value := t.parked[ks[0]]], t.parked - {ks[0]}), reg, ks[1..])
    else Reattach(t, reg, ks[1..])
  }

  // ----------------------------------------------------------- empty workspaces

  predicate RecentlyLeft(s: State, x: SpaceId, now: Instant) {
    exists w | w in s.lastSpace :: s.lastSpace[w].0 == x && now < s.lastSpace[w].1 + WINDOW_LAST_SPACE_TTL
  }

  /** Up for judgement: volatile, shown, and not just bound, wanted or in grace. */
  predicate Judged(s: State, moved: set<Key>, k: Key, now: Instant)
    requires k in s.reg
  {
    && !s.reg[k].persistent && s.reg[k].backing.Some? && s.reg[k].backing.value.Normal?
    && k !in moved
    && !(exists f | f in s.focusQueue :: f.0 == k)
    && !(exists f | f in s.moveQueue :: f.1 == k)
    && !(k in s.grace && s.grace[k] > now)
  }

  /** Its Space is observed, ordinary, unfocused and neither holds nor just held a window. */
  predicate Empty(s: State, k: Key, now: Instant)
    requires k in s.reg && s.reg[k].backing.Some? && s.reg[k].backing.value.Normal?
  {
    var x := s.reg[k].backing.value.space;
    s.view.Ordinary(x) && !s.view.spaces[x].focused && !s.view.Occupied(x) && !RecentlyLeft(s, x, now)
  }

  /** Forgotten without touching its Space: the Space is gone, or is the display's last. */
  function Stale(s: State, moved: set<Key>, now: Instant): set<Key> {
    set k | k in s.reg && Judged(s, moved, k, now)
            && (var x := s.reg[k].backing.value.space;
                if x !in s.view.spaces then s.reg[k].dynamic
                else Empty(s, k, now) && |s.view.OrdinaryOn(s.view.spaces[x].display)| <= 1)
  }

  function Doomed(s: State, moved: set<Key>, now: Instant): (r: set<Key>)
    ensures forall k | k in r :: k in s.reg && s.reg[k].backing.Some? && s.reg[k].backing.value.Normal?
  {
    set k | k in s.reg && Judged(s, moved, k, now) && Empty(s, k, now)
            && |s.view.OrdinaryOn(s.view.spaces[s.reg[k].backing.value.space].display)| > 1
  }

  function KeyText(k: Key): string { ToText(k.display) + ":" + k.name }

  predicate TextLe(a: (string, Key), b: (string, Key)) {
    if a.0 != b.0 then StringLe(a.0, b.0) else KeyLe(a.1, b.1)
  }

  lemma {:induction false} TextTotal(s: set<(string, Key)>)
    ensures TotalOn(TextLe, s)
  {
    forall a, b | a in s && b in s
      ensures TextLe(a, b) || TextLe(b, a)
      ensures TextLe(a, b) && TextLe(b, a) ==> a == b
    {
      StringTotal(a.0, b.0);
      KeyTotal(a.1, b.1);
    }
    forall a, b, c | a in s && b in s && c in s && TextLe(a, b) && TextLe(b, c) ensures TextLe(a, c) {
      if a.0 == b.0 == c.0 {
        KeyTransitive(a.1, b.1, c.1);
      } else if a.0 != b.0 && b.0 != c.0 {
        StringTransitive(a.0, b.0, c.0);
        StringTotal(a.0, b.0);
      }
    }
  }

  /** The first of some workspaces by the text of their keys. */
  ghost function FirstByText(ks: set<Key>): (k: Key)
    requires ks != {}
    ensures k in ks
  {
    var ts := set k | k in ks :: (KeyText(k), k);
    TextTotal(ts);
    var k0 :| k0 in ks;
    assert (KeyText(k0), k0) in ts;
    Least(ts, TextLe).1
  }

  /** Forget the stale; grace entries go with their workspaces. */
  function Swept(s: State, stale: set<Key>): (r: State)
    ensures SameFlight(s, r) && r.requests == s.requests && r.reg == s.reg - stale
  {
    var s1 := RemoveAll(s, stale);
    s1.(grace := map k | k in s1.grace && k in s1.reg :: s1.grace[k])
  }

  /** The one workspace whose Space goes next, and that Space. */
  ghost function Condemned(s: State, moved: set<Key>, now: Instant): (r: Option<(Key, SpaceId)>)
    ensures r.Some? ==> r.value.0 in Doomed(s, moved, now) && s.reg[r.value.0].backing == Some(Normal(r.value.1))
    ensures r.None? <==> Doomed(s, moved, now) == {}
  {
    hide Doomed;
    var doomed := Doomed(s, moved, now);
    if doomed == {} then None
    else
      var k := FirstByText(doomed);
      Some((k, s.reg[k].backing.value.space))
  }

  /** The stale forgotten, and the one condemned Space asked to be destroyed. */
  ghost function Collected(s: State, moved: set<Key>, now: Instant): Outcome {
    if !s.caps.destroySpace || !s.Quiet() then (s, [])
    else
      var s1 := Swept(s, Stale(s, moved, now));
      match Condemned(s, moved, now)
      case None => (s1, [])
      case Some((k, x)) => (s1.(pendingDestroy := map[x := k]), [DestroySpace(x)])
  }

  lemma CollectedKeeps(s: State, moved: set<Key>, now: Instant)
    ensures var r := Collected(s, moved, now);
            && SameFlight(s, r.0.(pendingDestroy := s.pendingDestroy)) && r.0.requests == s.requests
            && (r.1 == [] ==> r.0.pendingDestroy == s.pendingDestroy)
            && (r.1 != [] ==> s.Quiet() && |r.1| == 1 && r.1[0].DestroySpace? && r.0.pendingDestroy.Keys == {r.1[0].space})
            && forall k | k in r.0.reg :: k in s.reg && r.0.reg[k] == s.reg[k]
  {
    hide Swept, Stale, Condemned, Doomed, State.Quiet;
  }

  ghost function DestroyEmpty(s: State, moved: set<Key>, now: Instant): (r: Outcome)
    ensures SameFlight(s, r.0.(pendingDestroy := s.pendingDestroy)) && r.0.requests == s.requests
    ensures r.1 == [] ==> r.0.pendingDestroy == s.pendingDestroy
    ensures r.1 != [] ==> s.Quiet() && |r.1| == 1 && r.1[0].DestroySpace? && r.0.pendingDestroy.Keys == {r.1[0].space}
    ensures forall k | k in r.0.reg :: k in s.reg && r.0.reg[k] == s.reg[k]
  {
    CollectedKeeps(s, moved, now);
    Collected(s, moved, now)
  }

  // ------------------------------------------------------------ queued intents

  function FulfillFocus(s: State, now: Instant): (r: Outcome)
    ensures r.0 == s.(focusQueue := r.0.focusQueue, grace := r.0.grace) && NoTopology(r.1)
  {
    if s.focusQueue == [] then (s, [])
    else
      var (k, attempts) := s.focusQueue[0];
      var popped := s.(focusQueue := s.focusQueue[1..]);
      match s.BackingOf(k)
      case Some(x) =>
        if attempts == 0 then (popped.(grace := s.grace[k := now + DYNAMIC_GRACE]), [FocusSpace(x)])
        else if x in s.view.spaces && s.view.spaces[x].focused then (popped.(grace := s.grace[k := now + DYNAMIC_GRACE]), [])
        else (popped, [])
      case None => if k in s.reg then (s, []) else (popped, [])
  }

  function FulfillMove(s: State, now: Instant): (r: Outcome)
    ensures r.0 == s.(moveQueue := r.0.moveQueue, grace := r.0.grace) && NoTopology(r.1)
  {
    if s.moveQueue == [] then (s, [])
    else
      var (w, k) := s.moveQueue[0];
      var popped := s.(moveQueue := s.moveQueue[1..]);
      match s.BackingOf(k)
      case Some(x) =>
        (popped.(grace := s.grace[k := now + DYNAMIC_GRACE]),
         if w in s.view.windows then [MoveWindowToSpace(w, x)] else [])
      case None => if k in s.reg then (s, []) else (popped, [])
  }

  function FulfillQueues(s: State, now: Instant): (r: Outcome)
    ensures r.0 == s.(focusQueue := r.0.focusQueue, moveQueue := r.0.moveQueue, grace := r.0.grace) && NoTopology(r.1)
  {
    if s.placement.Some? then (s, [])
    else
      var (s1, a1) := FulfillFocus(s, now);
      var (s2, a2) := FulfillMove(s1, now);
      (s2, a1 + a2)
  }

  // ------------------------------------------------------------------- creation

  function RequestAll(s: State, d: DisplayId, ks: seq<Key>): (r: State)
    ensures r == s.(requests := r.requests)
    decreases |ks|
  {
    if ks == [] then s
    else
      var wanted := ks[0] in s.reg && s.reg[ks[0]].persistent && s.reg[ks[0]].backing == None && !s.Expecting(ks[0]);
      RequestAll(if wanted then s.(requests := s.requests + [Request(ks[0], d)]) else s, d, ks[1..])
  }

  /** Persistent workspaces without a Space ask for one. */
  ghost function RequestMissing(s: State, displays: seq<DisplayId>): (r: State)
    ensures r == s.(requests := r.requests)
    decreases |displays|
  {
    if displays == [] then s
    else RequestMissing(RequestAll(s, displays[0], KeysFor(s.reg, displays[0])), displays[1..])
  }

  /** Where on a display a new Space is anchored: its focused Space, else its first. */
  ghost function Anchor(view: View, d: DisplayId): (r: Option<SpaceId>)
    requires view.WellKeyed()
    ensures r.Some? ==> r.value in view.spaces && view.spaces[r.value].display == d
    ensures r.None? <==> forall x | x in view.spaces :: view.spaces[x].display != d
  {
    var focused := set x | x in view.spaces && view.spaces[x].display == d && view.spaces[x].focused :: view.spaces[x];
    var all := set x | x in view.spaces && view.spaces[x].display == d :: view.spaces[x];
    if focused != {} then Some(FirstSlot(focused).id)
    else if all != {} then Some(FirstSlot(all).id)
    else
      assert forall x | x in view.spaces && view.spaces[x].display == d :: view.spaces[x] in all;
      None
  }

  /** One reservation, against the Spaces that exist now. */
  function Reserved(s: State, r: Request, now: Instant): (a: Awaited)
    ensures a.key == r.key && a.display == r.display && a.before == s.view.spaces.Keys
    ensures a.observation == Awaiting(now + CREATION_DEADLINE)
  {
    Awaited(r.key, r.display, s.view.spaces.Keys, Awaiting(now + CREATION_DEADLINE))
  }

  /** The request has to wait: the platform cannot create, or the display shows no Space. */
  ghost predicate Blocked(s: State, r: Request)
    requires s.view.WellKeyed()
  {
    (!s.caps.createSpace && r.key in s.reg && s.reg[r.key].persistent) || Anchor(s.view, r.display).None?
  }

  /** The request is moot: its workspace is gone, or has a Space already. */
  predicate Moot(s: State, r: Request) { r.key !in s.reg || s.reg[r.key].backing.Some? }

  /** The queue once moot requests in front are dropped. */
  ghost function Pending(s: State, q: seq<Request>): (r: seq<Request>)
    requires s.view.WellKeyed()
    ensures |r| <= |q| && r == q[|q| - |r|..]
    ensures r != [] ==> Blocked(s, r[0]) || !Moot(s, r[0])
    ensures forall i | 0 <= i < |q| - |r| :: Moot(s, q[i])
  {
    if q == [] || Blocked(s, q[0]) || !Moot(s, q[0]) then q else Pending(s, q[1..])
  }

  /** Start the next queued creation, one at a time and only when no other mutation is in flight. */
  ghost function TryStart(s: State, now: Instant): (r: Outcome)
    requires s.view.WellKeyed()
    ensures r.0 == s.(requests := r.0.requests, awaited := r.0.awaited)
    ensures r.1 == [] ==> r.0.awaited == s.awaited
    ensures r.1 != [] ==> s.Quiet() && |r.1| == 1 && r.1[0].CreateSpace? && |r.0.awaited| == 1
  {
    hide Anchor, Reserved, View.WellKeyed;
    if !s.Quiet() then (s, [])
    else
      var q := Pending(s, s.requests);
      if q == [] || Blocked(s, q[0]) then (s.(requests := q), [])
      else (s.(requests := q[1..], awaited := [Reserved(s, q[0], now)]), [CreateSpace(Anchor(s.view, q[0].display).value)])
  }

  // -------------------------------------------------------------------- healing

  predicate SlotGe(a: Space, b: Space) { SlotLe(b, a) }

  lemma {:induction false} SlotGeTotal(xs: set<Space>)
    requires forall a, b | a in xs && b in xs && a.id == b.id :: a == b
    ensures TotalOn(SlotGe, xs)
  {
    SlotTotal(xs);
  }

  /** Empty Spaces nobody claims: leftovers that may be removed. */
  function Orphans(s: State, now: Instant): set<Space> {
    set x | x in s.view.spaces && s.view.Ordinary(x) && !s.view.spaces[x].focused
            && !(x in s.external && s.external[x] > now) && !s.Known(x) && !s.view.Occupied(x)
            && |s.view.OrdinaryOn(s.view.spaces[x].display)| > 1 :: s.view.spaces[x]
  }

  ghost function NextHeal(s: State, now: Instant): (r: Option<SpaceId>)
    requires s.view.WellKeyed()
    ensures r.Some? ==> s.Quiet() && s.requests == [] && r.value in s.view.spaces && s.view.spaces[r.value] in Orphans(s, now)
  {
    if !s.caps.destroySpace || !s.Quiet() || s.requests != [] then None
    else
      var xs := Orphans(s, now);
      if xs == {} then None
      else
        SlotGeTotal(xs);
        Some(Least(xs, SlotGe).id)
  }

  ghost function HealIfIdle(s: State, actions: seq<Action>, now: Instant): (r: Outcome)
    requires s.view.WellKeyed()
    ensures r.0 == s.(topologyDestroy := r.0.topologyDestroy)
    ensures r == (s, actions) || (actions == [] && s.Quiet() && r.0.topologyDestroy.Some? && r.1 == [DestroySpace(r.0.topologyDestroy.value)])
  {
    if actions != [] || NextHeal(s, now).None? then (s, actions)
    else (s.(topologyDestroy := NextHeal(s, now)), [DestroySpace(NextHeal(s, now).value)])
  }

  // ------------------------------------------------------------------- the steps

  /** Destroys are confirmed; workspaces whose Space is gone are forgotten or parked. */
  ghost function WithoutVanished(s: State, now: Instant, reset: bool, visit: Visit): (r: State)
    ensures SameFlight(s, r.(pendingDestroy := s.pendingDestroy, topologyDestroy := s.topologyDestroy))
    ensures r.pendingDestroy == map p | p in s.pendingDestroy && p in s.view.spaces :: s.pendingDestroy[p]
    ensures r.topologyDestroy == if s.topologyDestroy.Some? && s.topologyDestroy.value !in s.view.spaces then None else s.topologyDestroy
  {
    hide NoteWindowSpaces, ConfirmDestroys, Retire, ParkVanished;
    var s1 := ConfirmDestroys(NoteWindowSpaces(s, now));
    if reset then s1 else ParkVanished(Retire(s1), visit.keys)
  }

  /** The walk over workspaces, made when there was no reset, reaches every workspace there is by then. */
  ghost predicate ParksAll(s: State, now: Instant, reset: bool, visit: Visit) {
    reset || forall k | k in Retire(ConfirmDestroys(NoteWindowSpaces(s, now))).reg :: k in visit.keys
  }

  /** The snapshot taken in, templates instantiated, fullscreen windows accounted for. */
  ghost function TakenIn(s: State, snap: Snapshot, now: Instant, visit: Visit): (r: State)
    ensures snap.complete ==> r.view.spaces == snap.spaces && r.view.windows == snap.windows && r.view.displays == snap.displays
  {
    var s1 := Observe(if IsReset(s.view, snap) then VoidReservations(s) else s, snap);
    ReconcileFullscreen(SyncConfig(s1, visit), s.view.windows, now, visit)
  }

  /** Everything that vanished is dealt with, and what was awaited is bound. */
  ghost function Gathered(s: State, snap: Snapshot, now: Instant, visit: Visit): (r: State)
    requires snap.complete && snap.WellKeyed()
    ensures r.view.WellKeyed() && r.view.spaces == snap.spaces && r.view.windows == snap.windows && r.view.displays == snap.displays
  {
    BindAwaited(WithoutVanished(TakenIn(s, snap, now, visit), now, IsReset(s.view, snap), visit), now, visit)
  }

  /** Bindings settle: who shows what, strangers' Spaces included. */
  ghost function Settled(s: State, snap: Snapshot, now: Instant, visit: Visit): (r: State)
    requires snap.complete && snap.WellKeyed()
    ensures r.view.WellKeyed() && r.view.spaces == snap.spaces && r.view.windows == snap.windows && r.view.displays == snap.displays
  {
    hide Gathered;
    ObserveExternal(Gathered(s, snap, now, visit), now)
  }

  /** Slots and trees follow the bindings. */
  ghost function Rebind(s: State, visit: Visit): (r: (State, seq<RemapMove>))
    requires s.view.WellKeyed()
    ensures r.0 == s.(reg := r.0.reg, layouts := r.0.layouts, parked := r.0.parked)
  {
    var (s1, moves) := RemapSlots(s, visit);
    var t := Reattach(MoveTrees(s1.AllTrees(), s1.view.spaces.Keys, moves), s1.reg, visit.parked);
    (s1.(layouts := t.layouts, parked := t.parked), moves)
  }

  /** The walk over parked trees meets this workspace's, if there is one by then. */
  ghost predicate Meets(s: State, visit: Visit, k: Key)
    requires s.view.WellKeyed()
  {
    var (s1, moves) := RemapSlots(s, visit);
    k in MoveTrees(s1.AllTrees(), s1.view.spaces.Keys, moves).parked ==> k in visit.parked
  }

  /** The walks a pass makes: displays and strips each listed once, and every entry of the maps it walks met. */
  ghost predicate WalksAll(s: State, snap: Snapshot, now: Instant, visit: Visit)
    requires snap.complete && snap.WellKeyed()
  {
    && NoDup(visit.displays) && Elements(visit.displays) == snap.displays.Keys && StripWalk(snap.displays, visit.strips)
    && ParksAll(TakenIn(s, snap, now, visit), now, IsReset(s.view, snap), visit)
    && MeetsAll(ReconcilePlacement(Settled(s, snap, now, visit), now).0, visit)
  }

  ghost predicate MeetsAll(s: State, visit: Visit)
    requires s.view.WellKeyed()
  {
    forall k :: Meets(s, visit, k)
  }

  function MovedKeys(moves: seq<RemapMove>): set<Key> {
    set m | m in moves :: m.key
  }

  /** With bindings settled: put the strip in order, clean up, answer what is queued, create, heal. */
  ghost function Advance(s: State, now: Instant, visit: Visit): Outcome
    requires s.view.WellKeyed()
  {
    var (s1, a1) := ReconcilePlacement(s, now);
    var (s2, moves) := Rebind(s1, visit);
    var (s3, a3) := DestroyEmpty(GraceSurplus(s2, now), MovedKeys(moves), now);
    var (s4, a4) := FulfillQueues(s3, now);
    var s5 := RequestMissing(s4, Ascending(s4.view.displays.Keys));
    var (s6, a6) := TryStart(s5, now);
    HealIfIdle(s6, a1 + a3 + a4 + a6, now)
  }

  /** Everything a snapshot leads to, short of tiling windows. */
  ghost function SnapshotStep(s: State, snap: Snapshot, now: Instant, visit: Visit): Outcome
    requires snap.WellKeyed()
  {
    hide Settled, Advance;
    if !snap.complete then (Observe(s, snap), []) else Advance(Settled(s, snap, now, visit), now, visit)
  }

  // ------------------------------------------------------------------- commands

  /** Ask for a workspace's Space: register, queue once, start if possible. */
  ghost function RequestCreation(s: State, d: DisplayId, name: string, now: Instant): Outcome
    requires s.view.WellKeyed()
  {
    var k := Key(d, name);
    var s1 := EnsureDynamic(s, k);
    if Anchor(s1.view, d).None? then (s1, [])
    else
      TryStart(if s1.Expecting(k) then s1 else s1.(requests := s1.requests + [Request(k, d)]), now)
  }

  function QueuedFocus(q: seq<(Key, nat)>, k: Key): seq<(Key, nat)> {
    if exists f | f in q :: f.0 == k then q else q + [(k, 0)]
  }

  function QueuedMove(q: seq<(WindowId, Key)>, w: WindowId, k: Key): seq<(WindowId, Key)> {
    if (w, k) in q then q else q + [(w, k)]
  }

  /** The workspace shows a Space that is there. */
  predicate Reachable(s: State, k: Key) { s.BackingOf(k).Some? && s.BackingOf(k).value in s.view.spaces }

  /** `alt-N` on display `d`. */
  ghost function FocusWorkspace(s: State, d: DisplayId, name: string, now: Instant): Outcome
    requires s.view.WellKeyed()
  {
    hide View.WellKeyed;
    var k := Key(d, name);
    var queued := s.(focusQueue := QueuedFocus(s.focusQueue, k));
    if !Reachable(s, k) then RequestCreation(if k in s.reg then ClearStale(queued, k) else queued, d, name, now)
    else if s.placement.Some? then (queued, [])
    else (s, [FocusSpace(s.BackingOf(k).value)])
  }

  /** Send a window to a workspace of display `d`. */
  ghost function MoveToWorkspace(s: State, w: WindowId, d: DisplayId, name: string, now: Instant): Outcome
    requires s.view.WellKeyed()
  {
    hide View.WellKeyed;
    var k := Key(d, name);
    var queued := s.(moveQueue := QueuedMove(s.moveQueue, w, k));
    if !Reachable(s, k) then RequestCreation(if k in s.reg then ClearStale(queued, k) else queued, d, name, now)
    else if s.view.spaces[s.BackingOf(k).value].isFullscreen then (s, [])
    else if s.placement.Some? then (queued, [])
    else (s.(grace := s.grace[k := now + DYNAMIC_GRACE]), [MoveWindowToSpace(w, s.BackingOf(k).value)])
  }

  /** The Spaces a list of actions destroys. */
  function Destroys(actions: seq<Action>): set<SpaceId> {
    set a | a in actions && a.DestroySpace? :: a.space
  }

  predicate Creates(actions: seq<Action>) { exists a | a in actions :: a.CreateSpace? }

  /** The platform reports that `unexecuted` never ran. */
  function NoteBatchFailed(s: State, unexecuted: seq<Action>): (r: State)
    ensures r == s.(awaited := r.awaited, pendingDestroy := r.pendingDestroy, topologyDestroy := r.topologyDestroy)
    ensures r.awaited == if Creates(unexecuted) && s.awaited != [] then s.awaited[1..] else s.awaited
  {
    hide Creates, Destroys;
    s.(awaited := if Creates(unexecuted) && s.awaited != [] then s.awaited[1..] else s.awaited,
       pendingDestroy := s.pendingDestroy - Destroys(unexecuted),
       topologyDestroy := if Destroys(unexecuted) == {} then s.topologyDestroy else None)
  }

  /** An event says a Space is gone. */
  function SpaceDestroyed(s: State, x: SpaceId): (r: State)
    ensures r.requests == s.requests && r.initialized == s.initialized && forall k | k in r.reg :: k in s.reg && r.reg[k] == s.reg[k]
    ensures r.view == s.view.(spaces := s.view.spaces - {x}) && r.awaited == s.awaited && r.topologyDestroy == s.topologyDestroy
    ensures r.pendingDestroy == s.pendingDestroy - {x}
  {
    var s1 := s.(view := s.view.(spaces := s.view.spaces - {x}));
    if x in s.pendingDestroy then
      RemoveAll(s1.(pendingDestroy := s1.pendingDestroy - {x}), {s.pendingDestroy[x]})
    else s1
  }

  function WindowDestroyed(s: State, w: WindowId): State {
    s.(view := s.view.(windows := s.view.windows - {w}))
  }

  function DisplayRemoved(s: State, d: DisplayId): State {
    s.(view := s.view.(displays := s.view.displays - {d}, generation := s.view.generation + 1, refreshRequired := true))
  }
}
