/** Stepping through a display's Spaces faster than the system reports where it is. */
module SpaceCursor {
  import opened Basics
  import opened Geometry
  import opened Observed

  /** Where navigation stands on each display; pending until a snapshot has caught up. */
  type Cursors = map<DisplayId, (SpaceId, bool)>

  datatype StepResult = Stepped(target: SpaceId, displacement: int) | InvalidSpaceStep | DisplayNotFound | NoAdjacentSpace

  function SpacesOn(view: View, d: DisplayId): set<Space> {
    set x | x in view.spaces && view.spaces[x].display == d :: view.spaces[x]
  }

  function Ids(xs: seq<Space>): (ids: seq<SpaceId>)
    ensures |ids| == |xs| && forall i | 0 <= i < |xs| :: ids[i] == xs[i].id
  {
    seq(|xs|, i requires 0 <= i < |xs| => xs[i].id)
  }

  /** A display's Spaces in native order. */
  ghost function Strip(view: View, d: DisplayId): seq<Space>
    requires view.WellKeyed()
  {
    SlotTotal(SpacesOn(view, d));
    Sorted(SpacesOn(view, d), SlotLe)
  }

  function FirstFocused(xs: seq<Space>): Option<SpaceId> {
    if xs == [] then None else if xs[0].focused then Some(xs[0].id) else FirstFocused(xs[1..])
  }

  function Place(ids: seq<SpaceId>, x: SpaceId): (i: nat)
    ensures i <= |ids| && (x in ids ==> i < |ids| && ids[i] == x)
  {
    if ids == [] || ids[0] == x then 0 else 1 + Place(ids[1..], x)
  }

  /** Where a step starts: at the cursor, else at the focused Space, else at the first. */
  function Standing(xs: seq<Space>, cursor: Option<(SpaceId, bool)>): SpaceId
    requires xs != []
  {
    if cursor.Some? then cursor.value.0 else if FirstFocused(xs).Some? then FirstFocused(xs).value else xs[0].id
  }

  /** Its place on the strip; a Space that is not there counts as the first. */
  function StandingPlace(xs: seq<Space>, cursor: Option<(SpaceId, bool)>): (i: nat)
    requires xs != []
    ensures i < |xs|
  {
    var x := Standing(xs, cursor);
    if x in Ids(xs) then Place(Ids(xs), x) else 0
  }

  function At<K(==), V>(m: map<K, V>, k: K): Option<V> { if k in m then Some(m[k]) else None }

  /** One step on a display, wrapping at the ends. */
  ghost function StepOn(view: View, cursors: Cursors, d: DisplayId, delta: int): (StepResult, Cursors)
    requires view.WellKeyed()
  {
    var xs := Strip(view, d);
    if delta != 1 && delta != -1 then (InvalidSpaceStep, cursors)
    else if xs == [] then (DisplayNotFound, cursors)
    else if |xs| == 1 then (NoAdjacentSpace, cursors)
    else
      var i := StandingPlace(xs, At(cursors, d));
      var next := (i + delta) % |xs|;
      (Stepped(xs[next].id, next - i), cursors[d := (xs[next].id, true)])
  }

  /** One focused Space for every display that has any. */
  ghost predicate Finds(view: View, found: map<DisplayId, SpaceId>) {
    && (forall d | d in found :: d in view.displays && found[d] in view.spaces && view.spaces[found[d]].display == d && view.spaces[found[d]].focused)
    && (forall d, x | d in view.displays && x in view.spaces && view.spaces[x].display == d && view.spaces[x].focused :: d in found)
  }

  /** A snapshot settles a cursor it agrees with, overrides a settled one, and leaves a pending one alone. */
  function Caught(cursor: Option<(SpaceId, bool)>, observed: SpaceId): (SpaceId, bool) {
    if cursor.Some? && cursor.value.1 && cursor.value.0 != observed then cursor.value else (observed, false)
  }

  ghost predicate OnStrip(view: View, d: DisplayId, x: SpaceId) {
    d in view.displays && x in view.spaces && view.spaces[x].display == d
  }

  /** Cursors after a snapshot. */
  ghost function CaughtUp(view: View, cursors: Cursors, found: map<DisplayId, SpaceId>): Cursors {
    var caught := cursors + map d | d in found :: Caught(At(cursors, d), found[d]);
    map d | d in caught && OnStrip(view, d, caught[d].0) :: caught[d]
  }

  /** The next snapshot decides, whatever was pending. */
  function Surrendered(cursors: Cursors): Cursors { map d | d in cursors :: (cursors[d].0, false) }

  /** The platform was told to focus a Space. */
  function Sent(view: View, cursors: Cursors, x: SpaceId): Cursors {
    if x in view.spaces then cursors[view.spaces[x].display := (x, true)] else cursors
  }

  /** Focusing a Space came to nothing. */
  function Dropped(view: View, cursors: Cursors, x: SpaceId): Cursors {
    if x in view.spaces then cursors - {view.spaces[x].display} else cursors
  }

  class SpaceCursors {
    var cursors: Cursors

    constructor ()
      ensures cursors == map[]
    {
      cursors := map[];
    }

    method FocusSpaceStep(view: View, d: DisplayId, delta: int) returns (r: StepResult)
      requires view.WellKeyed()
      modifies this
      ensures (r, cursors) == StepOn(view, old(cursors), d, delta)
    {
      if delta != 1 && delta != -1 {
        return InvalidSpaceStep;
      }
      var xs := CollectStrip(view, d);
      if xs == [] {
        return DisplayNotFound;
      }
      if |xs| == 1 {
        return NoAdjacentSpace;
      }
      hide StandingPlace;
      var i := StandingPlace(xs, At(cursors, d));
      var next := (i + delta) % |xs|;
      cursors := cursors[d := (xs[next].id, true)];
      return Stepped(xs[next].id, next - i);
    }

    static method CollectStrip(view: View, d: DisplayId) returns (xs: seq<Space>)
      requires view.WellKeyed()
      ensures xs == Strip(view, d)
    {
      var on := Enumerate(SpacesOn(view, d));
      SlotTotal(Elements(on));
      xs := SortSeq(on, SlotLe);
    }

    method AbandonPending()
      modifies this
      ensures cursors == Surrendered(old(cursors))
    {
      cursors := map d | d in cursors :: (cursors[d].0, false);
    }

    method NoteDispatched(view: View, x: SpaceId)
      modifies this
      ensures cursors == Sent(view, old(cursors), x)
    {
      if x in view.spaces {
        cursors := cursors[view.spaces[x].display := (x, true)];
      }
    }

    method CancelPending(view: View, x: SpaceId)
      modifies this
      ensures cursors == Dropped(view, old(cursors), x)
    {
      if x in view.spaces {
        cursors := cursors - {view.spaces[x].display};
      }
    }

    /** One display: whichever focused Space is met first settles or keeps the cursor. */
    method CatchOne(view: View, d: DisplayId) returns (observed: Option<SpaceId>)
      modifies this
      ensures observed.Some? ==> observed.value in view.spaces && view.spaces[observed.value].display == d && view.spaces[observed.value].focused
      ensures observed.None? ==> forall x | x in view.spaces && view.spaces[x].display == d :: !view.spaces[x].focused
      ensures cursors == if observed.Some? then old(cursors)[d := Caught(At(old(cursors), d), observed.value)] else old(cursors)
    {
      var focused := set x | x in view.spaces && view.spaces[x].display == d && view.spaces[x].focused;
      if focused == {} {
        assert forall x | x in view.spaces && view.spaces[x].display == d :: x !in focused;
        return None;
      }
      var x :| x in focused;
      if !(d in cursors && cursors[d].1 && cursors[d].0 != x) {
        cursors := cursors[d := (x, false)];
      } else {
        assert cursors[d := cursors[d]] == cursors;
      }
      return Some(x);
    }

    method CatchAll(view: View) returns (ghost found: map<DisplayId, SpaceId>)
      modifies this
      ensures FoundBeyond(view, found, {}) && CaughtBy(old(cursors), found, cursors)
    {
      var rest := view.displays.Keys;
      found := map[];
      while rest != {}
        invariant rest <= view.displays.Keys
        invariant FoundBeyond(view, found, rest)
        invariant CaughtBy(old(cursors), found, cursors)
        decreases |rest|
      {
        hide FoundBeyond, CaughtBy, Caught;
        var d :| d in rest;
        ghost var was, had := found, cursors;
        var observed := CatchOne(view, d);
        if observed.Some? {
          found := found[d := observed.value];
        }
        OneMoreFound(view, old(cursors), was, had, rest, d, observed);
        rest := rest - {d};
      }
    }

    /** `reconcile_space_cursors`: one pass over the displays, then drop cursors off their strip. */
    method Reconcile(view: View) returns (ghost found: map<DisplayId, SpaceId>)
      modifies this
      ensures Finds(view, found) && cursors == CaughtUp(view, old(cursors), found)
    {
      found := CatchAll(view);
      CaughtIsMap(old(cursors), found, cursors);
      hide CaughtBy, Caught;
      cursors := map d | d in cursors && d in view.displays && cursors[d].0 in view.spaces && view.spaces[cursors[d].0].display == d :: cursors[d];
    }
  }

  lemma {:induction false} OneMoreFound(view: View, before: Cursors, found: map<DisplayId, SpaceId>, cursors: Cursors, rest: set<DisplayId>,
                                        d: DisplayId, observed: Option<SpaceId>)
    requires FoundBeyond(view, found, rest) && CaughtBy(before, found, cursors) && d in rest && d in view.displays
    requires observed.Some? ==> observed.value in view.spaces && view.spaces[observed.value].display == d && view.spaces[observed.value].focused
    requires observed.None? ==> forall x | x in view.spaces && view.spaces[x].display == d :: !view.spaces[x].focused
    ensures FoundBeyond(view, if observed.Some? then found[d := observed.value] else found, rest - {d})
    ensures CaughtBy(before, if observed.Some? then found[d := observed.value] else found,
                     if observed.Some? then cursors[d := Caught(At(cursors, d), observed.value)] else cursors)
  {
    hide Caught;
    assert d !in found && At(cursors, d) == At(before, d);
  }

  lemma {:induction false} CaughtIsMap(before: Cursors, found: map<DisplayId, SpaceId>, cursors: Cursors)
    requires CaughtBy(before, found, cursors)
    ensures cursors == before + map d | d in found :: Caught(At(before, d), found[d])
  {
    hide Caught;
    var caught := before + map d | d in found :: Caught(At(before, d), found[d]);
    forall d: DisplayId ensures At(caught, d) == At(cursors, d) {
    }
    forall d: DisplayId ensures d in caught <==> d in cursors {
      assert At(caught, d) == At(cursors, d);
    }
    forall d | d in caught ensures caught[d] == cursors[d] {
      assert At(caught, d) == At(cursors, d);
    }
  }

  /** Focus found on exactly the displays visited that have any. */
  ghost predicate FoundBeyond(view: View, found: map<DisplayId, SpaceId>, rest: set<DisplayId>) {
    && (forall d | d in found :: d in view.displays && d !in rest && found[d] in view.spaces
                                 && view.spaces[found[d]].display == d && view.spaces[found[d]].focused)
    && (forall d, x | d in view.displays && d !in rest && x in view.spaces && view.spaces[x].display == d && view.spaces[x].focused :: d in found)
  }

  ghost predicate CaughtBy(before: Cursors, found: map<DisplayId, SpaceId>, cursors: Cursors) {
    forall d: DisplayId :: At(cursors, d) == if d in found then Some(Caught(At(before, d), found[d])) else At(before, d)
  }

  // -------------------------------------------------------------- navigation

  /** What happens while someone steps along: presses, snapshots, stale ones too, and focus commands sent and failed. */
  datatype Nav =
    | Press(delta: int)
    | Seen(view: View, found: map<DisplayId, SpaceId>)
    | Dispatched(space: SpaceId)
    | Cancelled(space: SpaceId)
    | Abandoned

  datatype Course = Course(view: View, cursors: Cursors)

  ghost function StripIds(view: View, d: DisplayId): seq<SpaceId>
    requires view.WellKeyed()
  {
    Ids(Strip(view, d))
  }

  /** A place moved by some steps, around the ends. */
  function Around(i: int, steps: int, n: int): int
    requires n > 0
  {
    (i + steps) % n
  }

  /** Where the display's navigation stands: at its cursor, or where the next step would start. */
  ghost function StandsAt(c: Course, d: DisplayId): SpaceId
    requires c.view.WellKeyed() && Strip(c.view, d) != []
  {
    Standing(Strip(c.view, d), At(c.cursors, d))
  }

  /** Where it would stand without a cursor. */
  ghost function FocusAt(c: Course, d: DisplayId): SpaceId
    requires c.view.WellKeyed() && Strip(c.view, d) != []
  {
    Standing(Strip(c.view, d), None)
  }

  ghost predicate Sound(c: Course, d: DisplayId, q: seq<SpaceId>) {
    c.view.WellKeyed() && d in c.view.displays && |q| >= 2 && StripIds(c.view, d) == q && StandsAt(c, d) in q
  }

  /** The place of the display's strip navigation stands at. */
  ghost function Spot(c: Course, d: DisplayId, q: seq<SpaceId>): (i: nat)
    requires Sound(c, d, q)
    ensures i < |q| && |q| >= 2
  {
    Place(q, StandsAt(c, d))
  }

  /** From place `i` to place `j` by what was asked and what it was moved by besides; `told` is what the asking amounts to. */
  predicate Steps(i: int, j: int, asked: int, moved: int, told: int, n: int) {
    n > 0 && 0 <= j < n && j == Around(i, asked + moved, n) && told + moved == j - i
  }

  /** Every snapshot shows the display with the same Spaces in the same order. */
  ghost predicate SameStrip(d: DisplayId, q: seq<SpaceId>, nav: Nav) {
    nav.Seen? ==> nav.view.WellKeyed() && d in nav.view.displays && StripIds(nav.view, d) == q && Finds(nav.view, nav.found)
  }

  ghost function Next(c: Course, d: DisplayId, nav: Nav): Course
    requires c.view.WellKeyed()
  {
    match nav
    case Press(delta) => c.(cursors := StepOn(c.view, c.cursors, d, delta).1)
    case Seen(view, found) => Course(view, CaughtUp(view, c.cursors, found))
    case Dispatched(x) => c.(cursors := Sent(c.view, c.cursors, x))
    case Cancelled(x) => c.(cursors := Dropped(c.view, c.cursors, x))
    case Abandoned => c.(cursors := Surrendered(c.cursors))
  }

  /** How far a press tells the platform to go. */
  ghost function Emitted(c: Course, d: DisplayId, nav: Nav): int
    requires c.view.WellKeyed()
  {
    if nav.Press? && StepOn(c.view, c.cursors, d, nav.delta).0.Stepped? then StepOn(c.view, c.cursors, d, nav.delta).0.displacement else 0
  }

  /** What a press asks for; only single steps are taken. */
  function Wanted(nav: Nav): int {
    if nav.Press? && (nav.delta == 1 || nav.delta == -1) then nav.delta else 0
  }

  /** A snapshot says nothing new: none of the display's Spaces is focused, or the focus it shows lags behind a pending step. */
  predicate Stale(cursor: Option<(SpaceId, bool)>, d: DisplayId, found: map<DisplayId, SpaceId>) {
    cursor.Some? && (d !in found || (cursor.value.1 && cursor.value.0 != found[d]))
  }

  /** How far something other than a press moves the standing place. */
  ghost function Jump(c: Course, d: DisplayId, q: seq<SpaceId>, nav: Nav): int
    requires Sound(c, d, q)
  {
    var here := Spot(c, d, q);
    match nav
    case Press(_) => 0
    case Seen(_, found) => if Stale(At(c.cursors, d), d, found) then 0 else (if d in found then Place(q, found[d]) else 0) - here
    case Dispatched(x) => if x in q then Place(q, x) - here else 0
    case Cancelled(x) => if x in q then Place(q, FocusAt(c, d)) - here else 0
    case Abandoned => 0
  }

  lemma {:induction false} StripDistinct(view: View, d: DisplayId)
    requires view.WellKeyed()
    ensures NoDup(StripIds(view, d))
    ensures forall x :: x in Strip(view, d) <==> x in SpacesOn(view, d)
  {
    SlotTotal(SpacesOn(view, d));
    SortedIsOrdered(SpacesOn(view, d), SlotLe);
    var xs := Strip(view, d);
    assert forall x :: x in xs <==> x in Elements(xs);
    forall i, j | 0 <= i < j < |xs| ensures Ids(xs)[i] != Ids(xs)[j] {
      assert xs[i] in xs && xs[j] in xs;
    }
  }

  lemma {:induction false} PlaceOf(q: seq<SpaceId>, i: nat)
    requires NoDup(q) && i < |q|
    ensures Place(q, q[i]) == i
  {
    if i > 0 {
      assert q == [q[0]] + q[1..] && NoDup(q[1..]) && q[0] != q[i];
      PlaceOf(q[1..], i - 1);
    }
  }

  lemma {:induction false} OnStripIds(view: View, d: DisplayId, x: SpaceId)
    requires view.WellKeyed()
    ensures x in StripIds(view, d) <==> x in view.spaces && view.spaces[x].display == d
  {
    StripDistinct(view, d);
    var xs := Strip(view, d);
    hide Strip;
    if x in view.spaces && view.spaces[x].display == d {
      assert view.spaces[x] in SpacesOn(view, d);
      var i :| 0 <= i < |xs| && xs[i] == view.spaces[x];
      assert StripIds(view, d)[i] == x;
    }
    if x in StripIds(view, d) {
      var i :| 0 <= i < |xs| && xs[i].id == x;
      assert xs[i] in xs;
    }
  }

  /** Without a cursor navigation stands on the strip: at a focused Space, else at the first. */
  lemma {:induction false} FocusOnStrip(xs: seq<Space>)
    requires xs != []
    ensures Standing(xs, None) in Ids(xs)
    ensures (forall x | x in xs :: !x.focused) ==> Standing(xs, None) == Ids(xs)[0]
  {
    FirstFocusedIs(xs);
    if FirstFocused(xs).Some? {
      var i :| 0 <= i < |xs| && xs[i].id == FirstFocused(xs).value;
      assert Ids(xs)[i] == xs[i].id;
    } else {
      assert Ids(xs)[0] == xs[0].id;
    }
  }

  lemma {:induction false} FirstFocusedIs(xs: seq<Space>)
    ensures FirstFocused(xs).Some? ==> exists i :: 0 <= i < |xs| && xs[i].focused && xs[i].id == FirstFocused(xs).value
    ensures FirstFocused(xs).None? ==> forall x | x in xs :: !x.focused
  {
    if xs != [] && !xs[0].focused {
      FirstFocusedIs(xs[1..]);
      if FirstFocused(xs).Some? {
        var i :| 0 <= i < |xs[1..]| && xs[1..][i].focused && xs[1..][i].id == FirstFocused(xs).value;
        assert xs[i + 1].focused && xs[i + 1].id == FirstFocused(xs).value;
      }
    }
  }

  /** A single step moves the standing place by its delta, around the ends, and says how far that is. */
  lemma {:induction false} PressMoves(c: Course, d: DisplayId, q: seq<SpaceId>, delta: int)
    requires Sound(c, d, q) && (delta == 1 || delta == -1)
    ensures var after := Next(c, d, Press(delta));
            Sound(after, d, q) && Steps(Spot(c, d, q), Spot(after, d, q), delta, 0, Emitted(c, d, Press(delta)), |q|)
  {
    hide Strip, Place, StandingPlace, Standing, StandsAt, StepOn, At, Sound, Spot;
    var next := Around(Spot(c, d, q), delta, |q|);
    SoundIsKeyed(c, d, q);
    PressSteps(c, d, q, delta, next);
    StandsThere(c, d, q, next);
  }

  lemma {:induction false} PressSteps(c: Course, d: DisplayId, q: seq<SpaceId>, delta: int, next: nat)
    requires Sound(c, d, q) && (delta == 1 || delta == -1) && next == Around(Spot(c, d, q), delta, |q|)
    ensures next < |q| && StepOn(c.view, c.cursors, d, delta) == (Stepped(q[next], next - Spot(c, d, q)), c.cursors[d := (q[next], true)])
  {
    hide Strip, Place, StandingPlace, Standing, At;
    StandingIsPlace(Strip(c.view, d), At(c.cursors, d));
  }

  /** A cursor on a Space of the strip is where navigation stands. */
  lemma {:induction false} StandsThere(c: Course, d: DisplayId, q: seq<SpaceId>, i: nat)
    requires Sound(c, d, q) && i < |q|
    ensures var r := c.(cursors := c.cursors[d := (q[i], true)]); Sound(r, d, q) && Spot(r, d, q) == i
  {
    hide Strip, Place, Standing;
    StripDistinct(c.view, d);
    PlaceOf(q, i);
    CursorStands(Strip(c.view, d), q[i], true);
  }

  lemma StandingIsPlace(xs: seq<Space>, cursor: Option<(SpaceId, bool)>)
    requires xs != [] && Standing(xs, cursor) in Ids(xs)
    ensures StandingPlace(xs, cursor) == Place(Ids(xs), Standing(xs, cursor))
  {
  }

  lemma CursorStands(xs: seq<Space>, x: SpaceId, pending: bool)
    requires xs != []
    ensures Standing(xs, Some((x, pending))) == x
  {
  }

  /** Anything else than a single step asks the platform for nothing and moves the standing place as told. */
  lemma {:induction false} OtherMoves(c: Course, d: DisplayId, q: seq<SpaceId>, nav: Nav)
    requires Sound(c, d, q) && SameStrip(d, q, nav) && Wanted(nav) == 0
    ensures Sound(Next(c, d, nav), d, q)
    ensures Steps(Spot(c, d, q), Spot(Next(c, d, nav), d, q), 0, Jump(c, d, q, nav), Emitted(c, d, nav), |q|)
  {
    hide *;
    OtherMovesBy(c, d, q, nav);
    StillSteps(Spot(c, d, q), Spot(Next(c, d, nav), d, q), Jump(c, d, q, nav), |q|);
  }

  lemma StillSteps(i: int, j: nat, moved: int, n: int)
    requires j == i + moved < n
    ensures Steps(i, j, 0, moved, 0, n)
  {
  }

  lemma {:induction false} OtherMovesBy(c: Course, d: DisplayId, q: seq<SpaceId>, nav: Nav)
    requires Sound(c, d, q) && SameStrip(d, q, nav) && Wanted(nav) == 0
    ensures c.view.WellKeyed() && Sound(Next(c, d, nav), d, q) && Emitted(c, d, nav) == 0
    ensures Spot(Next(c, d, nav), d, q) == Spot(c, d, q) + Jump(c, d, q, nav)
  {
    match nav
    case Press(_) =>
    case Seen(view, found) => SeenMoves(c, d, q, view, found);
    case Dispatched(x) =>
      OnStripIds(c.view, d, x);
      hide Strip, Place;
    case Cancelled(x) =>
      OnStripIds(c.view, d, x);
      FocusOnStrip(Strip(c.view, d));
      hide Strip, Place, FirstFocused;
    case Abandoned =>
      hide Strip, Place;
  }

  lemma {:induction false} SeenMoves(c: Course, d: DisplayId, q: seq<SpaceId>, view: View, found: map<DisplayId, SpaceId>)
    requires Sound(c, d, q) && SameStrip(d, q, Seen(view, found))
    ensures Sound(Next(c, d, Seen(view, found)), d, q)
    ensures Spot(Next(c, d, Seen(view, found)), d, q) == Spot(c, d, q) + Jump(c, d, q, Seen(view, found))
  {
    hide Strip, Place, FirstFocused, CaughtUp;
    var x := StandsAt(c, d);
    OnStripIds(view, d, x);
    StripDistinct(view, d);
    FocusOnStrip(Strip(view, d));
    if d in found {
      OnStripIds(view, d, found[d]);
    }
    if d !in found {
      assert forall y | y in Strip(view, d) :: y in SpacesOn(view, d);
    }
    StripDistinct(c.view, d);
    PlaceOf(q, 0);
    CursorAfter(view, c.cursors, found, d);
  }

  /** What a snapshot leaves of one display's cursor. */
  lemma {:induction false} CursorAfter(view: View, cursors: Cursors, found: map<DisplayId, SpaceId>, d: DisplayId)
    requires d in view.displays && Finds(view, found)
    requires d in cursors ==> OnStrip(view, d, cursors[d].0)
    ensures At(CaughtUp(view, cursors, found), d) == if d in found then Some(Caught(At(cursors, d), found[d])) else At(cursors, d)
  {
    var caught := cursors + map e | e in found :: Caught(At(cursors, e), found[e]);
    assert d in caught ==> OnStrip(view, d, caught[d].0);
  }

  lemma SoundIsKeyed(c: Course, d: DisplayId, q: seq<SpaceId>)
    requires Sound(c, d, q)
    ensures c.view.WellKeyed()
  {
  }

  lemma {:induction false} NextIsSound(c: Course, d: DisplayId, q: seq<SpaceId>, nav: Nav)
    requires Sound(c, d, q) && SameStrip(d, q, nav)
    ensures Sound(Next(c, d, nav), d, q)
    ensures Steps(Spot(c, d, q), Spot(Next(c, d, nav), d, q), Wanted(nav), Jump(c, d, q, nav), Emitted(c, d, nav), |q|)
  {
    hide *;
    SoundIsKeyed(c, d, q);
    OnlyPressesAsk(nav);
    if Wanted(nav) == 0 {
      OtherMoves(c, d, q, nav);
    } else {
      PressJumpsNot(c, d, q, nav.delta);
      PressMoves(c, d, q, nav.delta);
    }
  }

  lemma OnlyPressesAsk(nav: Nav)
    ensures Wanted(nav) != 0 ==> nav == Press(nav.delta) && nav.delta == Wanted(nav) && (nav.delta == 1 || nav.delta == -1)
  {
  }

  lemma PressJumpsNot(c: Course, d: DisplayId, q: seq<SpaceId>, delta: int)
    requires Sound(c, d, q)
    ensures Jump(c, d, q, Press(delta)) == 0
  {
    hide Sound, Spot;
  }

  // -------------------------------------------------------------------- runs

  ghost predicate SameStrips(d: DisplayId, q: seq<SpaceId>, navs: seq<Nav>) {
    forall nav | nav in navs :: SameStrip(d, q, nav)
  }

  ghost function Finally(c: Course, d: DisplayId, q: seq<SpaceId>, navs: seq<Nav>): (r: Course)
    requires Sound(c, d, q) && SameStrips(d, q, navs)
    ensures Sound(r, d, q)
    decreases |navs|
  {
    hide Next, Emitted, SameStrip;
    if navs == [] then c else NextIsSound(c, d, q, navs[0]); Finally(Next(c, d, navs[0]), d, q, navs[1..])
  }

  function Requested(navs: seq<Nav>): int {
    if navs == [] then 0 else Wanted(navs[0]) + Requested(navs[1..])
  }

  ghost function Walked(c: Course, d: DisplayId, q: seq<SpaceId>, navs: seq<Nav>): int
    requires Sound(c, d, q) && SameStrips(d, q, navs)
    decreases |navs|
  {
    hide Next, Emitted, SameStrip;
    if navs == [] then 0 else NextIsSound(c, d, q, navs[0]); Emitted(c, d, navs[0]) + Walked(Next(c, d, navs[0]), d, q, navs[1..])
  }

  /** What everything but the presses moved it by. */
  ghost function Jumped(c: Course, d: DisplayId, q: seq<SpaceId>, navs: seq<Nav>): int
    requires Sound(c, d, q) && SameStrips(d, q, navs)
    decreases |navs|
  {
    hide Next, Jump, SameStrip;
    if navs == [] then 0 else NextIsSound(c, d, q, navs[0]); Jump(c, d, q, navs[0]) + Jumped(Next(c, d, navs[0]), d, q, navs[1..])
  }

  lemma {:induction false} Grows(x: int, n: int)
    requires n > 0 && x >= 1
    ensures x * n >= n
  {
    assert (x - 1) * n >= 0;
  }

  lemma {:induction false} ModUnique(a: int, k: int, r: int, n: int)
    requires n > 0 && 0 <= r < n && a == k * n + r
    ensures a % n == r
  {
    var q := a / n;
    assert a == q * n + a % n;
    assert (k - q) * n == a % n - r;
    assert (q - k) * n == r - a % n;
    if k > q {
      Grows(k - q, n);
    } else if k < q {
      Grows(q - k, n);
    }
  }

  lemma {:induction false} AddMod(i: int, a: int, b: int, n: int)
    requires n > 0
    ensures Around(Around(i, a, n), b, n) == Around(i, a + b, n)
  {
    var k, r := (i + a) / n, (i + a) % n;
    var l, s := (r + b) / n, (r + b) % n;
    assert i + a == k * n + r;
    assert r + b == l * n + s;
    assert (k + l) * n == k * n + l * n;
    ModUnique(i + (a + b), k + l, s, n);
  }

  lemma NoSteps(i: nat, n: int)
    requires i < n
    ensures Steps(i, i, 0, 0, 0, n)
  {
  }

  lemma {:induction false} StepsTwice(i: int, j: int, e: int, a: int, b: int, k: int, l: int, t: int, u: int, n: int)
    requires Steps(i, j, a, k, t, n) && Steps(j, e, b, l, u, n)
    ensures Steps(i, e, a + b, k + l, t + u, n)
  {
    AddMod(i, a + k, b + l, n);
    assert (a + b) + (k + l) == (a + k) + (b + l);
    hide Around;
  }

  lemma NothingAsked(c: Course, d: DisplayId, q: seq<SpaceId>, navs: seq<Nav>)
    requires Sound(c, d, q) && SameStrips(d, q, navs) && navs == []
    ensures Finally(c, d, q, navs) == c && Requested(navs) == 0 && Jumped(c, d, q, navs) == 0 && Walked(c, d, q, navs) == 0
  {
    hide Sound;
  }

  lemma {:induction false} FirstThenRest(c: Course, d: DisplayId, q: seq<SpaceId>, navs: seq<Nav>) returns (nav: Nav, rest: seq<Nav>)
    requires Sound(c, d, q) && SameStrips(d, q, navs) && navs != []
    ensures |rest| < |navs| && navs == [nav] + rest && c.view.WellKeyed()
    ensures SameStrip(d, q, nav) && SameStrips(d, q, rest) && Sound(Next(c, d, nav), d, q)
    ensures var c' := Next(c, d, nav);
            && Finally(c, d, q, navs) == Finally(c', d, q, rest)
            && Requested(navs) == Wanted(nav) + Requested(rest)
            && Jumped(c, d, q, navs) == Jump(c, d, q, nav) + Jumped(c', d, q, rest)
            && Walked(c, d, q, navs) == Emitted(c, d, nav) + Walked(c', d, q, rest)
  {
    nav, rest := navs[0], navs[1..];
    assert nav in navs;
    SoundIsKeyed(c, d, q);
    NextIsSound(c, d, q, nav);
    hide Next, Emitted, Jump, SameStrip, Sound;
  }

  lemma {:induction false} RunSteps(c: Course, d: DisplayId, q: seq<SpaceId>, navs: seq<Nav>)
    requires Sound(c, d, q) && SameStrips(d, q, navs)
    ensures Steps(Spot(c, d, q), Spot(Finally(c, d, q, navs), d, q), Requested(navs), Jumped(c, d, q, navs), Walked(c, d, q, navs), |q|)
    decreases |navs|
  {
    hide *;
    if navs == [] {
      NothingAsked(c, d, q, navs);
      NoSteps(Spot(c, d, q), |q|);
    } else {
      var nav, rest := FirstThenRest(c, d, q, navs);
      NextIsSound(c, d, q, nav);
      var c' := Next(c, d, nav);
      RunSteps(c', d, q, rest);
      StepsTwice(Spot(c, d, q), Spot(c', d, q), Spot(Finally(c', d, q, rest), d, q), Wanted(nav), Requested(rest),
                 Jump(c, d, q, nav), Jumped(c', d, q, rest), Emitted(c, d, nav), Walked(c', d, q, rest), |q|);
    }
  }

  /**
   * With the strip unchanged, over any mix of presses, snapshots and focus commands, navigation ends
   * at the start plus all that was pressed plus what the rest moved it by, around the ends, and what
   * the platform was told adds up to exactly the change of place the presses made.
   */
  lemma {:induction false} StepsAddUp(c: Course, d: DisplayId, q: seq<SpaceId>, navs: seq<Nav>)
    requires Sound(c, d, q) && SameStrips(d, q, navs)
    ensures var start, end := Spot(c, d, q), Spot(Finally(c, d, q, navs), d, q);
            && end == (start + Requested(navs) + Jumped(c, d, q, navs)) % |q|
            && Walked(c, d, q, navs) + Jumped(c, d, q, navs) == end - start
  {
    hide *;
    RunSteps(c, d, q, navs);
    StepsMean(Spot(c, d, q), Spot(Finally(c, d, q, navs), d, q), Requested(navs), Jumped(c, d, q, navs), Walked(c, d, q, navs), |q|);
  }

  lemma StepsMean(i: int, j: int, asked: int, moved: int, told: int, n: int)
    requires Steps(i, j, asked, moved, told, n)
    ensures n > 0 && j == (i + asked + moved) % n && told + moved == j - i
  {
  }

  // ------------------------------------------------------- rapid navigation

  /** Presses of one step, and snapshots. */
  predicate Rapid(navs: seq<Nav>) { forall nav | nav in navs :: Wanted(nav) != 0 || nav.Seen? }

  /** The display's next step starts from a target the system has not reported yet. */
  ghost predicate IsPending(c: Course, d: DisplayId) { d in c.cursors && c.cursors[d].1 }

  /** No snapshot of the run shows the focus on the place navigation has reached by then. */
  ghost predicate NeverCaughtUp(c: Course, d: DisplayId, q: seq<SpaceId>, navs: seq<Nav>)
    requires Sound(c, d, q) && SameStrips(d, q, navs)
    decreases |navs|
  {
    navs == []
    || (&& (navs[0].Seen? && d in navs[0].found ==> navs[0].found[d] != StandsAt(c, d))
        && (NextIsSound(c, d, q, navs[0]); NeverCaughtUp(Next(c, d, navs[0]), d, q, navs[1..])))
  }

  /**
   * While the system lags behind, however stale its snapshots, a pending target is never lost: the
   * run ends at the start plus exactly the steps pressed, and the distances told add up to that.
   */
  lemma {:induction false} LaggingKeepsSteps(c: Course, d: DisplayId, q: seq<SpaceId>, navs: seq<Nav>)
    requires Sound(c, d, q) && SameStrips(d, q, navs) && IsPending(c, d) && Rapid(navs) && NeverCaughtUp(c, d, q, navs)
    ensures Jumped(c, d, q, navs) == 0
    ensures var start, end := Spot(c, d, q), Spot(Finally(c, d, q, navs), d, q);
            end == (start + Requested(navs)) % |q| && Walked(c, d, q, navs) == end - start
  {
    NothingJumps(c, d, q, navs);
    StepsAddUp(c, d, q, navs);
    hide Spot, Finally, Walked, Jumped;
  }

  lemma {:induction false} NothingJumps(c: Course, d: DisplayId, q: seq<SpaceId>, navs: seq<Nav>)
    requires Sound(c, d, q) && SameStrips(d, q, navs) && IsPending(c, d) && Rapid(navs) && NeverCaughtUp(c, d, q, navs)
    ensures Jumped(c, d, q, navs) == 0
    decreases |navs|
  {
    if navs != [] {
      hide SameStrip, Place;
      assert navs[0] in navs;
      NextIsSound(c, d, q, navs[0]);
      StaysPending(c, d, q, navs[0]);
      hide Next, StandsAt, Sound, Spot, IsPending, Wanted, Jump;
      NothingJumps(Next(c, d, navs[0]), d, q, navs[1..]);
    }
  }

  lemma {:induction false} StaysPending(c: Course, d: DisplayId, q: seq<SpaceId>, nav: Nav)
    requires Sound(c, d, q) && SameStrip(d, q, nav) && IsPending(c, d) && (Wanted(nav) != 0 || nav.Seen?)
    requires nav.Seen? && d in nav.found ==> nav.found[d] != StandsAt(c, d)
    ensures Jump(c, d, q, nav) == 0 && IsPending(Next(c, d, nav), d)
  {
    hide Strip, Place;
    if nav.Seen? {
      OnStripIds(nav.view, d, StandsAt(c, d));
      var after := CaughtUp(nav.view, c.cursors, nav.found);
      assert d in nav.found ==> d in after && after[d] == Caught(At(c.cursors, d), nav.found[d]);
      assert At(after, d) == At(c.cursors, d);
    }
  }

  lemma {:induction false} OnlyLooks(navs: seq<Nav>)
    requires forall nav | nav in navs :: nav.Seen?
    ensures Rapid(navs) && Requested(navs) == 0
  {
    if navs != [] {
      assert navs[0] in navs;
      OnlyLooks(navs[1..]);
    }
  }

  lemma {:induction false} DispatchIsPending(c: Course, d: DisplayId, q: seq<SpaceId>, x: SpaceId)
    requires Sound(c, d, q) && x in q
    ensures c.view.WellKeyed() && IsPending(Next(c, d, Dispatched(x)), d)
  {
    OnStripIds(c.view, d, x);
  }

  lemma SpotIs(c: Course, d: DisplayId, q: seq<SpaceId>)
    requires Sound(c, d, q)
    ensures c.view.WellKeyed() && Strip(c.view, d) != [] && q[Spot(c, d, q)] == StandsAt(c, d)
  {
  }

  lemma SameSpot(i: nat, j: nat, asked: int, n: int)
    requires i < n && j == (i + asked) % n && asked == 0
    ensures j == i
  {
  }

  lemma DispatchStands(c: Course, d: DisplayId, q: seq<SpaceId>, x: SpaceId)
    requires Sound(c, d, q) && x in q
    ensures SameStrip(d, q, Dispatched(x)) && c.view.WellKeyed() && Strip(Next(c, d, Dispatched(x)).view, d) != []
    ensures Sound(Next(c, d, Dispatched(x)), d, q) && StandsAt(Next(c, d, Dispatched(x)), d) == x
  {
    OnStripIds(c.view, d, x);
    hide Strip, Place;
  }

  /** A Space the platform was told to focus is where the next step starts from, until a snapshot shows it. */
  lemma {:induction false} DispatchHolds(c: Course, d: DisplayId, q: seq<SpaceId>, x: SpaceId, looks: seq<Nav>)
    requires Sound(c, d, q) && x in q && SameStrips(d, q, looks) && forall nav | nav in looks :: nav.Seen?
    requires c.view.WellKeyed() && Sound(Next(c, d, Dispatched(x)), d, q) && NeverCaughtUp(Next(c, d, Dispatched(x)), d, q, looks)
    ensures var end := Finally(Next(c, d, Dispatched(x)), d, q, looks);
            end.view.WellKeyed() && Strip(end.view, d) != [] && StandsAt(end, d) == x
  {
    hide *;
    DispatchStands(c, d, q, x);
    DispatchIsPending(c, d, q, x);
    OnlyLooks(looks);
    var sent := Next(c, d, Dispatched(x));
    LaggingKeepsSteps(sent, d, q, looks);
    var end := Finally(sent, d, q, looks);
    SpotIs(sent, d, q);
    SpotIs(end, d, q);
    SameSpot(Spot(sent, d, q), Spot(end, d, q), Requested(looks), |q|);
  }

  /** Once pending steps are abandoned, or a focus command is cancelled, the next snapshot that shows the focus decides. */
  lemma {:induction false} YieldsToFocus(c: Course, d: DisplayId, q: seq<SpaceId>, nav: Nav, view: View, found: map<DisplayId, SpaceId>)
    requires Sound(c, d, q) && (nav.Abandoned? || (nav.Cancelled? && nav.space in q))
    requires SameStrip(d, q, Seen(view, found)) && d in found
    ensures c.view.WellKeyed() && Next(c, d, nav).view.WellKeyed()
    ensures var after := Next(Next(c, d, nav), d, Seen(view, found));
            after.view.WellKeyed() && Strip(after.view, d) != [] && StandsAt(after, d) == found[d]
  {
    OnStripIds(view, d, found[d]);
    if nav.Cancelled? {
      OnStripIds(c.view, d, nav.space);
    }
    hide Strip;
    var cursors := Next(c, d, nav).cursors;
    var caught := cursors + map e | e in found :: Caught(At(cursors, e), found[e]);
    assert caught[d] == (found[d], false);
  }

  // ------------------------------------------------------------- the first press

  /** Of the display's Spaces, `y` is left of `z`: by native position, then by id. */
  predicate LeftOf(view: View, y: SpaceId, z: SpaceId)
    requires y in view.spaces && z in view.spaces
  {
    view.spaces[y].position < view.spaces[z].position || (view.spaces[y].position == view.spaces[z].position && y < z)
  }

  /** One step right of `y` on its display: nothing between, or all the way round from the last to the first. */
  ghost predicate RightNeighbour(view: View, d: DisplayId, y: SpaceId, z: SpaceId) {
    && y in view.spaces && z in view.spaces && view.spaces[y].display == d && view.spaces[z].display == d && y != z
    && if LeftOf(view, y, z) then forall x | x in view.spaces && view.spaces[x].display == d && x != y && x != z :: LeftOf(view, x, y) || LeftOf(view, z, x)
       else forall x | x in view.spaces && view.spaces[x].display == d :: (x == y || LeftOf(view, x, y)) && (x == z || LeftOf(view, z, x))
  }

  lemma {:induction false} StripEntries(view: View, d: DisplayId)
    requires view.WellKeyed()
    ensures var xs, q := Strip(view, d), StripIds(view, d);
            && |q| == |xs| && forall i | 0 <= i < |xs| ::
                 q[i] == xs[i].id && q[i] in view.spaces && view.spaces[q[i]] == xs[i] && xs[i].display == d
  {
    StripDistinct(view, d);
    hide Strip;
    var xs := Strip(view, d);
    forall i | 0 <= i < |xs| ensures xs[i].id in view.spaces && view.spaces[xs[i].id] == xs[i] && xs[i].display == d {
      assert xs[i] in SpacesOn(view, d);
    }
  }

  lemma {:induction false} StripInSlotOrder(view: View, d: DisplayId)
    requires view.WellKeyed()
    ensures var xs := Strip(view, d); forall i, j | 0 <= i < j < |xs| :: SlotLe(xs[i], xs[j])
  {
    SlotTotal(SpacesOn(view, d));
    SortedIsOrdered(SpacesOn(view, d), SlotLe);
    hide SlotLe, SpacesOn;
  }

  /** The display's Spaces, each once and from left to right. */
  ghost predicate FromLeft(view: View, d: DisplayId, q: seq<SpaceId>) {
    && NoDup(q) && (forall x :: x in q <==> x in view.spaces && view.spaces[x].display == d)
    && forall i, j | 0 <= i < j < |q| :: q[i] in view.spaces && q[j] in view.spaces && LeftOf(view, q[i], q[j])
  }

  lemma {:induction false} StripIsOrdered(view: View, d: DisplayId)
    requires view.WellKeyed()
    ensures FromLeft(view, d, StripIds(view, d))
  {
    hide Strip, StripIds, SpacesOn;
    StripDistinct(view, d);
    StripEntries(view, d);
    StripInSlotOrder(view, d);
    var xs, q := Strip(view, d), StripIds(view, d);
    forall x ensures x in q <==> x in view.spaces && view.spaces[x].display == d {
      OnStripIds(view, d, x);
    }
    forall i, j | 0 <= i < j < |q| ensures q[i] in view.spaces && q[j] in view.spaces && LeftOf(view, q[i], q[j]) {
      assert SlotLe(xs[i], xs[j]) && q[i] != q[j];
    }
  }

  ghost predicate On(view: View, d: DisplayId, x: SpaceId) { x in view.spaces && view.spaces[x].display == d }

  /** The display's first Space from the left, or the first of its focused ones. */
  ghost predicate Leftmost(view: View, d: DisplayId, focused: bool, y: SpaceId) {
    && On(view, d, y) && (focused ==> view.spaces[y].focused)
    && forall x | On(view, d, x) && (focused ==> view.spaces[x].focused) :: x == y || LeftOf(view, y, x)
  }

  ghost predicate SomeFocused(view: View, d: DisplayId) { exists x :: On(view, d, x) && view.spaces[x].focused }

  /**
   * Where the display's next step starts: at the Space its cursor names, or at the first one if that
   * is not there; without a cursor, at the first focused Space, else at the first.
   */
  ghost predicate StartsFrom(view: View, cursors: Cursors, d: DisplayId, y: SpaceId) {
    if d in cursors then if On(view, d, cursors[d].0) then y == cursors[d].0 else Leftmost(view, d, false, y)
    else Leftmost(view, d, SomeFocused(view, d), y)
  }

  lemma {:induction false} FocusedFirst(xs: seq<Space>, i: nat)
    requires i < |xs| && xs[i].focused && forall j | 0 <= j < i :: !xs[j].focused
    ensures FirstFocused(xs) == Some(xs[i].id)
  {
    if i != 0 {
      FocusedFirst(xs[1..], i - 1);
    }
  }

  lemma {:induction false} NobodyFocused(xs: seq<Space>)
    requires forall x | x in xs :: !x.focused
    ensures FirstFocused(xs) == None
  {
    if xs != [] {
      NobodyFocused(xs[1..]);
    }
  }

  lemma {:induction false} LeftmostIsHead(view: View, d: DisplayId, q: seq<SpaceId>, y: SpaceId)
    requires FromLeft(view, d, q) && Leftmost(view, d, false, y)
    ensures q != [] && q[0] == y
  {
    hide LeftOf;
    assert On(view, d, y) && y in q;
    var i :| 0 <= i < |q| && q[i] == y;
    if i != 0 {
      assert q[0] in q && On(view, d, q[0]) && LeftOf(view, q[0], q[i]);
      LeftOneWay(view, q[0], y);
    }
  }

  /** The first focused entry of the strip is the leftmost focused Space. */
  lemma {:induction false} LeftmostFocusedIsFirst(view: View, d: DisplayId, y: SpaceId)
    requires view.WellKeyed() && Leftmost(view, d, true, y)
    ensures FirstFocused(Strip(view, d)) == Some(y)
  {
    hide Strip, LeftOf, FirstFocused;
    StripIsOrdered(view, d);
    StripEntries(view, d);
    var xs, q := Strip(view, d), StripIds(view, d);
    assert On(view, d, y) && y in q;
    var i :| 0 <= i < |q| && q[i] == y;
    forall j | 0 <= j < i ensures !xs[j].focused {
      assert q[j] in q && On(view, d, q[j]) && LeftOf(view, q[j], q[i]);
      LeftOneWay(view, q[j], y);
    }
    FocusedFirst(xs, i);
  }

  lemma {:induction false} NoneFocusedOnStrip(view: View, d: DisplayId)
    requires view.WellKeyed() && !SomeFocused(view, d)
    ensures FirstFocused(Strip(view, d)) == None
  {
    hide Strip, FirstFocused;
    StripEntries(view, d);
    var xs, q := Strip(view, d), StripIds(view, d);
    forall x | x in xs ensures !x.focused {
      var i :| 0 <= i < |xs| && xs[i] == x;
      assert On(view, d, q[i]);
    }
    NobodyFocused(xs);
  }

  lemma {:induction false} StartIsOnStrip(view: View, cursors: Cursors, d: DisplayId, y: SpaceId)
    requires view.WellKeyed() && StartsFrom(view, cursors, d, y)
    ensures y in StripIds(view, d) && Strip(view, d) != []
  {
    hide Strip, LeftOf;
    OnStripIds(view, d, y);
    StripEntries(view, d);
  }

  lemma {:induction false} HeadIsFirst(ids: seq<SpaceId>)
    requires ids != []
    ensures Place(ids, ids[0]) == 0
  {
  }

  lemma {:induction false} StartsAtPlace(view: View, cursors: Cursors, d: DisplayId, y: SpaceId)
    requires view.WellKeyed() && StartsFrom(view, cursors, d, y)
    ensures var q := StripIds(view, d); y in q && Strip(view, d) != [] && StandingPlace(Strip(view, d), At(cursors, d)) == Place(q, y)
  {
    hide Strip, Place, SpacesOn, FirstFocused, LeftOf, FromLeft, Leftmost, SomeFocused;
    StartIsOnStrip(view, cursors, d, y);
    StripIsOrdered(view, d);
    StripEntries(view, d);
    var q := StripIds(view, d);
    HeadIsFirst(q);
    if d in cursors {
      OnStripIds(view, d, cursors[d].0);
      if !On(view, d, cursors[d].0) {
        LeftmostIsHead(view, d, q, y);
      }
    } else if SomeFocused(view, d) {
      LeftmostFocusedIsFirst(view, d, y);
    } else {
      NoneFocusedOnStrip(view, d);
      LeftmostIsHead(view, d, q, y);
    }
  }

  /** One place on, from the last to the first. */
  function After(i: nat, n: nat): nat { if i + 1 < n then i + 1 else 0 }

  /** One place back, from the first to the last. */
  function Before(i: nat, n: nat): nat
    requires n > 0
  {
    if i == 0 then n - 1 else i - 1
  }

  lemma {:induction false} StepWraps(i: nat, n: nat)
    requires i < n
    ensures (i + 1) % n == After(i, n) < n && (i - 1) % n == Before(i, n) < n && After(Before(i, n), n) == i
  {
    WrapsTo(i + 1, if i + 1 == n then 1 else 0, After(i, n), n);
    WrapsTo(i - 1, if i == 0 then -1 else 0, Before(i, n), n);
  }

  lemma WrapsTo(a: int, k: int, r: int, n: int)
    requires 0 <= r < n && (k == 0 ==> a == r) && (k == 1 ==> a == n + r) && (k == -1 ==> a == r - n) && -1 <= k <= 1
    ensures a % n == r
  {
    assert k * n == if k == 0 then 0 else if k == 1 then n else -n;
    ModUnique(a, k, r, n);
  }

  lemma SteppedTarget(view: View, cursors: Cursors, d: DisplayId, delta: int, i: nat)
    requires view.WellKeyed() && |StripIds(view, d)| > 1 && (delta == 1 || delta == -1) && Strip(view, d) != []
    requires StandingPlace(Strip(view, d), At(cursors, d)) == i < |StripIds(view, d)|
    ensures var q, r := StripIds(view, d), StepOn(view, cursors, d, delta).0; r.Stepped? && r.target == q[(i + delta) % |q|]
  {
    hide Strip, StandingPlace;
  }

  lemma {:induction false} NextIsRight(view: View, d: DisplayId, q: seq<SpaceId>, i: nat)
    requires |q| > 1 && i < |q| && FromLeft(view, d, q)
    ensures RightNeighbour(view, d, q[i], q[After(i, |q|)])
  {
    hide LeftOf;
    var n := After(i, |q|);
    assert q[i] in q && q[n] in q && LeftOf(view, q[if i < n then i else n], q[if i < n then n else i]);
    LeftOneWay(view, q[i], q[n]);
    forall x | x in view.spaces && view.spaces[x].display == d
      ensures x == q[i] || x == q[n] || (if i < n then LeftOf(view, x, q[i]) || LeftOf(view, q[n], x) else LeftOf(view, x, q[i]) && LeftOf(view, q[n], x))
    {
      assert x in q;
      var m :| 0 <= m < |q| && q[m] == x;
      assert m < i ==> LeftOf(view, q[m], q[i]);
      assert m < n ==> LeftOf(view, q[m], q[n]);
      assert i < m ==> LeftOf(view, q[i], q[m]);
      assert n < m ==> LeftOf(view, q[n], q[m]);
    }
  }

  lemma LeftOneWay(view: View, y: SpaceId, z: SpaceId)
    requires y in view.spaces && z in view.spaces
    ensures LeftOf(view, y, z) ==> !LeftOf(view, z, y)
  {
  }

  /**
   * A step forward goes to the next Space of the display by native position, from the last to the
   * first; a step back to the one before, from the first to the last.
   */
  lemma {:induction false} PressGoesNext(view: View, cursors: Cursors, d: DisplayId, y: SpaceId, delta: int)
    requires view.WellKeyed() && StartsFrom(view, cursors, d, y) && |StripIds(view, d)| > 1 && (delta == 1 || delta == -1)
    ensures var r := StepOn(view, cursors, d, delta).0;
            r.Stepped? && if delta == 1 then RightNeighbour(view, d, y, r.target) else RightNeighbour(view, d, r.target, y)
  {
    hide *;
    StartsAtPlace(view, cursors, d, y);
    StripIsOrdered(view, d);
    var q := StripIds(view, d);
    var i := Place(q, y);
    StepWraps(i, |q|);
    SteppedTarget(view, cursors, d, delta, i);
    if delta == 1 {
      NextIsRight(view, d, q, i);
    } else {
      NextIsRight(view, d, q, Before(i, |q|));
    }
  }

  /** A step is refused only for its size, or for want of Spaces, and a refused one changes nothing. */
  lemma {:induction false} WhyNoStep(view: View, cursors: Cursors, d: DisplayId, delta: int)
    requires view.WellKeyed()
    ensures var on := set x | x in view.spaces && view.spaces[x].display == d; var r := StepOn(view, cursors, d, delta);
            && (r.0 == InvalidSpaceStep <==> delta != 1 && delta != -1)
            && (r.0 == DisplayNotFound <==> (delta == 1 || delta == -1) && on == {})
            && (r.0 == NoAdjacentSpace <==> (delta == 1 || delta == -1) && |on| == 1)
            && (!r.0.Stepped? ==> r.1 == cursors)
  {
    hide Strip, StandingPlace;
    var on := set x | x in view.spaces && view.spaces[x].display == d;
    StripDistinct(view, d);
    var q := StripIds(view, d);
    NoDupSize(q);
    forall x ensures x in q <==> x in on {
      OnStripIds(view, d, x);
    }
    assert Elements(q) == on && |q| == |Strip(view, d)|;
  }

  /**
   * After a snapshot a step starts at a pending cursor whose Space is still on the display, and
   * otherwise at the Space the snapshot shows focused there.
   */
  lemma {:induction false} SnapshotDecidesStart(view: View, cursors: Cursors, found: map<DisplayId, SpaceId>, d: DisplayId)
    requires view.WellKeyed() && Finds(view, found) && d in found && forall x | On(view, d, x) && view.spaces[x].focused :: x == found[d]
    ensures StartsFrom(view, CaughtUp(view, cursors, found), d,
                       if d in cursors && cursors[d].1 && On(view, d, cursors[d].0) then cursors[d].0 else found[d])
  {
    hide LeftOf;
    assert On(view, d, found[d]);
  }
}
