/** The difference between what windows should be and what they are, as actions. */
module Reconcile {
  import opened Basics
  import opened Geometry
  import opened Observed

  const FRAME_EPSILON: real := 0.75

  /** Where policy wants a window. */
  datatype Target = Target(space: Option<SpaceId>, frame: Option<Rect>, focused: Option<bool>, floating: bool)

  type Desired = map<WindowId, Target>

  function Abs(v: real): real { if v < 0.0 then -v else v }

  predicate Close(a: Rect, b: Rect) {
    Abs(a.x - b.x) <= FRAME_EPSILON && Abs(a.y - b.y) <= FRAME_EPSILON
    && Abs(a.width - b.width) <= FRAME_EPSILON && Abs(a.height - b.height) <= FRAME_EPSILON
  }

  /** Nothing more to do for one window that is observed afresh. */
  predicate Met(t: Target, w: Window) {
    && (t.space.Some? ==> w.space == t.space)
    && (t.frame.Some? ==> Close(w.frame, t.frame.value))
    && (t.focused == Some(true) ==> w.focused)
  }

  function MoveStep(id: WindowId, t: Target, w: Window): seq<Action> {
    if t.space.Some? && w.space != t.space then [MoveWindowToSpace(id, t.space.value)] else []
  }

  function FrameStep(id: WindowId, t: Target, w: Window): seq<Action> {
    if t.frame.Some? && !Close(w.frame, t.frame.value) then [SetWindowFrame(id, t.frame.value)] else []
  }

  function FocusStep(id: WindowId, t: Target, w: Window): seq<Action> {
    if t.focused == Some(true) && !w.focused then [FocusWindow(id)] else []
  }

  function ActionsFor(view: View, id: WindowId, t: Target): seq<Action> {
    if id !in view.windows || view.windows[id].generation != view.generation then [RefreshWindow(id)]
    else MoveStep(id, t, view.windows[id]) + FrameStep(id, t, view.windows[id]) + FocusStep(id, t, view.windows[id])
  }

  function ActionsOver(view: View, desired: Desired, ids: seq<WindowId>): seq<Action>
    requires forall id | id in ids :: id in desired
  {
    if ids == [] then []
    else ActionsOver(view, desired, ids[..|ids| - 1]) + ActionsFor(view, ids[|ids| - 1], desired[ids[|ids| - 1]])
  }

  /** The whole difference, window by window in id order. */
  ghost function Difference(view: View, desired: Desired): seq<Action> {
    var ids := Ascending(desired.Keys);
    assert forall id :: id in ids <==> id in Elements(ids);
    if view.refreshRequired then [RefreshAll] else ActionsOver(view, desired, ids)
  }

  /** `reconcile`: sort the ids, then one loop with early continues. */
  method ReconcileWindows(view: View, desired: Desired) returns (actions: seq<Action>)
    ensures actions == Difference(view, desired)
  {
    hide Close, MoveStep, FrameStep, FocusStep, ActionsOver, Elements;
    if view.refreshRequired {
      return [RefreshAll];
    }
    actions := [];
    var ids := SortedIds(desired);
    NoActionsYet(view, desired);
    for i := 0 to |ids|
      invariant actions == ActionsOver(view, desired, ids[..i])
    {
      OneMoreWindow(view, desired, ids, i);
      var id := ids[i];
      if id !in view.windows || view.windows[id].generation != view.generation {
        actions := actions + [RefreshWindow(id)];
        continue;
      }
      var found := WindowActions(id, desired[id], view.windows[id]);
      actions := actions + found;
    }
    assert ids[..|ids|] == ids;
  }

  method SortedIds(desired: Desired) returns (ids: seq<WindowId>)
    ensures ids == Ascending(desired.Keys) && forall id | id in ids :: id in desired
  {
    var found := Enumerate(desired.Keys);
    NatTotal(Elements(found));
    ids := SortSeq(found, NatLe);
    assert forall id :: id in ids <==> id in Elements(ids);
  }

  lemma NoActionsYet(view: View, desired: Desired)
    ensures ActionsOver(view, desired, []) == []
  {
  }

  lemma OneMoreWindow(view: View, desired: Desired, ids: seq<WindowId>, i: nat)
    requires i < |ids| && forall id | id in ids :: id in desired
    ensures ActionsOver(view, desired, ids[..i + 1]) == ActionsOver(view, desired, ids[..i]) + ActionsFor(view, ids[i], desired[ids[i]])
  {
    assert ids[..i + 1][..i] == ids[..i] && ids[..i + 1][i] == ids[i];
    hide ActionsFor;
  }

  method WindowActions(id: WindowId, t: Target, w: Window) returns (actions: seq<Action>)
    ensures actions == MoveStep(id, t, w) + FrameStep(id, t, w) + FocusStep(id, t, w)
  {
    actions := [];
    if t.space.Some? && w.space != t.space {
      actions := actions + [MoveWindowToSpace(id, t.space.value)];
    }
    assert actions == MoveStep(id, t, w);
    if t.frame.Some? && !Close(w.frame, t.frame.value) {
      actions := actions + [SetWindowFrame(id, t.frame.value)];
    }
    if t.focused == Some(true) && !w.focused {
      actions := actions + [FocusWindow(id)];
    }
  }

  // ------------------------------------------------------- faithful execution

  type Windows = map<WindowId, Window>

  /** A platform that does to a window exactly what it is told. */
  function Obey(ws: Windows, a: Action): Windows {
    match a
    case MoveWindowToSpace(w, x) => if w in ws then ws[w := ws[w].(space := Some(x))] else ws
    case SetWindowFrame(w, f) => if w in ws then ws[w := ws[w].(frame := f)] else ws
    case _ => ws
  }

  function ObeyAll(ws: Windows, actions: seq<Action>): Windows
    decreases |actions|
  {
    if actions == [] then ws else ObeyAll(Obey(ws, actions[0]), actions[1..])
  }

  lemma {:induction false} ObeyConcat(ws: Windows, a: seq<Action>, b: seq<Action>)
    ensures ObeyAll(ws, a + b) == ObeyAll(ObeyAll(ws, a), b)
    decreases |a|
  {
    if a == [] {
      assert a + b == b;
    } else {
      assert (a + b)[0] == a[0] && (a + b)[1..] == a[1..] + b;
      ObeyConcat(Obey(ws, a[0]), a[1..], b);
    }
  }

  function Placed(t: Target, w: Window): Window { w.(space := if t.space.Some? then t.space else w.space) }

  function Framed(t: Target, w: Window): Window {
    w.(frame := if t.frame.Some? && !Close(w.frame, t.frame.value) then t.frame.value else w.frame)
  }

  /** A window once its own actions are carried out. */
  function Settled(t: Target, w: Window): Window { Framed(t, Placed(t, w)) }

  lemma ObeyMove(ws: Windows, id: WindowId, t: Target)
    requires id in ws
    ensures ObeyAll(ws, MoveStep(id, t, ws[id])) == ws[id := Placed(t, ws[id])]
  {
    hide Close;
    assert ws[id := ws[id]] == ws;
  }

  lemma ObeyFrame(ws: Windows, id: WindowId, t: Target)
    requires id in ws
    ensures ObeyAll(ws, FrameStep(id, t, ws[id])) == ws[id := Framed(t, ws[id])]
  {
    hide Close;
    assert ws[id := ws[id]] == ws;
  }

  lemma ObeyFocus(ws: Windows, id: WindowId, t: Target, w: Window)
    ensures ObeyAll(ws, FocusStep(id, t, w)) == ws
  {
  }

  /** Carrying out one window's actions settles it and touches nothing else. */
  lemma {:induction false} ObeyOne(ws: Windows, id: WindowId, t: Target, w: Window)
    requires id in ws && ws[id] == w
    ensures ObeyAll(ws, MoveStep(id, t, w) + FrameStep(id, t, w) + FocusStep(id, t, w)) == ws[id := Settled(t, w)]
  {
    ObeyConcat(ws, MoveStep(id, t, w) + FrameStep(id, t, w), FocusStep(id, t, w));
    ObeyConcat(ws, MoveStep(id, t, w), FrameStep(id, t, w));
    ObeyMove(ws, id, t);
    var ws1 := ws[id := Placed(t, w)];
    assert FrameStep(id, t, w) == FrameStep(id, t, ws1[id]);
    ObeyFrame(ws1, id, t);
    ObeyFocus(ws1[id := Settled(t, w)], id, t, w);
    hide Close, Placed, Framed;
    assert ws1[id := Settled(t, w)] == ws[id := Settled(t, w)];
  }

  /** Every window with a target is settled, every other one as it was. */
  function SettledAll(ws: Windows, desired: Desired, ids: set<WindowId>): Windows {
    map w | w in ws :: if w in ids && w in desired then Settled(desired[w], ws[w]) else ws[w]
  }

  ghost predicate Fresh(view: View) {
    !view.refreshRequired && forall w | w in view.windows :: view.windows[w].generation == view.generation
  }

  lemma {:induction false} ObeyOver(view: View, desired: Desired, ids: seq<WindowId>)
    requires Fresh(view) && NoDup(ids) && forall id | id in ids :: id in desired && id in view.windows
    ensures ObeyAll(view.windows, ActionsOver(view, desired, ids)) == SettledAll(view.windows, desired, Elements(ids))
  {
    hide MoveStep, FrameStep, FocusStep, Settled, Obey, SettledAll, NoDup, Elements, ObeyAll;
    var ws := view.windows;
    if ids == [] {
      NoneSettled(ws, desired);
    } else {
      var last, rest := ids[|ids| - 1], ids[..|ids| - 1];
      LastApart(ids);
      ObeyOver(view, desired, rest);
      ObeyConcat(ws, ActionsOver(view, desired, rest), ActionsFor(view, last, desired[last]));
      OneMoreSettled(ws, desired, Elements(rest), last);
      ObeyOne(SettledAll(ws, desired, Elements(rest)), last, desired[last], ws[last]);
    }
  }

  lemma NoneSettled(ws: Windows, desired: Desired)
    ensures SettledAll(ws, desired, Elements([])) == ws && ObeyAll(ws, []) == ws
  {
  }

  lemma {:induction false} LastApart(ids: seq<WindowId>)
    requires ids != [] && NoDup(ids)
    ensures var last, rest := ids[|ids| - 1], ids[..|ids| - 1];
            NoDup(rest) && last !in Elements(rest) && Elements(ids) == Elements(rest) + {last}
  {
    var last, rest := ids[|ids| - 1], ids[..|ids| - 1];
    assert ids == rest + [last] && last !in rest;
  }

  lemma {:induction false} OneMoreSettled(ws: Windows, desired: Desired, done: set<WindowId>, id: WindowId)
    requires id in ws && id in desired && id !in done
    ensures var mid := SettledAll(ws, desired, done);
            id in mid && mid[id] == ws[id] && mid[id := Settled(desired[id], ws[id])] == SettledAll(ws, desired, done + {id})
  {
    hide Settled;
  }

  /** Carrying the whole difference out settles every window that has a target. */
  lemma {:induction false} ObeySettles(view: View, desired: Desired)
    requires Fresh(view) && desired.Keys == view.windows.Keys
    ensures ObeyAll(view.windows, Difference(view, desired)) == SettledAll(view.windows, desired, desired.Keys)
  {
    var ids := Ascending(desired.Keys);
    assert forall id :: id in ids <==> id in Elements(ids);
    ObeyOver(view, desired, ids);
  }

  lemma {:induction false} NothingOver(view: View, desired: Desired, ids: seq<WindowId>)
    requires forall id | id in ids :: id in desired
    ensures ActionsOver(view, desired, ids) == [] <==>
              forall id | id in ids :: id in view.windows && view.windows[id].generation == view.generation && Met(desired[id], view.windows[id])
  {
    if ids != [] {
      var rest := ids[..|ids| - 1];
      assert ids == rest + [ids[|ids| - 1]];
      NothingOver(view, desired, rest);
    }
  }

  /** There is nothing to do exactly when observation is fresh and every target is met. */
  lemma {:induction false} NoActionIffMet(view: View, desired: Desired)
    ensures Difference(view, desired) == [] <==>
              !view.refreshRequired
              && forall id | id in desired :: id in view.windows && view.windows[id].generation == view.generation && Met(desired[id], view.windows[id])
  {
    var ids := Ascending(desired.Keys);
    assert forall id :: id in ids <==> id in Elements(ids);
    NothingOver(view, desired, ids);
  }

  /** The view once the difference is carried out. */
  ghost function Obeyed(view: View, desired: Desired): View {
    view.(windows := ObeyAll(view.windows, Difference(view, desired)))
  }

  /** Carrying the difference out leaves none, focus aside. */
  lemma {:induction false} ObeyedIsMet(view: View, desired: Desired)
    requires Fresh(view) && desired.Keys == view.windows.Keys && forall id | id in desired :: desired[id].focused != Some(true)
    ensures Difference(Obeyed(view, desired), desired) == []
  {
    ObeySettles(view, desired);
    var after := Obeyed(view, desired);
    forall id | id in desired ensures id in after.windows && after.windows[id].generation == after.generation && Met(desired[id], after.windows[id]) {
      assert after.windows[id] == Settled(desired[id], view.windows[id]);
    }
    hide Difference;
    NoActionIffMet(after, desired);
  }

  // ------------------------------------------------------------ what is asked for

  /** Some coordinate or side is off by more than three quarters of a point. */
  predicate OffBy(a: Rect, b: Rect) {
    || a.x - b.x > 0.75 || b.x - a.x > 0.75 || a.y - b.y > 0.75 || b.y - a.y > 0.75
    || a.width - b.width > 0.75 || b.width - a.width > 0.75 || a.height - b.height > 0.75 || b.height - a.height > 0.75
  }

  /** The window is observed, and observed since anything last changed. */
  predicate SeenAfresh(view: View, id: WindowId) { id in view.windows && view.windows[id].generation == view.generation }

  /** The action is what its window's target asks for: the Space it is not on, the frame it is off, the focus it lacks. */
  predicate AsksIt(view: View, desired: Desired, a: Action) {
    match a
    case RefreshWindow(id) => id in desired && !SeenAfresh(view, id)
    case MoveWindowToSpace(id, x) =>
      id in desired && SeenAfresh(view, id) && desired[id].space == Some(x) && view.windows[id].space != Some(x)
    case SetWindowFrame(id, f) =>
      id in desired && SeenAfresh(view, id) && desired[id].frame == Some(f) && OffBy(view.windows[id].frame, f)
    case FocusWindow(id) =>
      id in desired && SeenAfresh(view, id) && desired[id].focused == Some(true) && !view.windows[id].focused
    case _ => false
  }

  function AboutWindow(a: Action): Option<WindowId> {
    match a
    case RefreshWindow(id) => Some(id)
    case MoveWindowToSpace(id, _) => Some(id)
    case SetWindowFrame(id, _) => Some(id)
    case FocusWindow(id) => Some(id)
    case _ => None
  }

  lemma {:induction false} AskedOfOne(view: View, desired: Desired, id: WindowId, a: Action)
    requires id in desired
    ensures a in ActionsFor(view, id, desired[id]) <==> AboutWindow(a) == Some(id) && AsksIt(view, desired, a)
  {
  }

  lemma {:induction false} AskedOver(view: View, desired: Desired, ids: seq<WindowId>, a: Action)
    requires forall id | id in ids :: id in desired
    ensures a in ActionsOver(view, desired, ids) <==> AboutWindow(a).Some? && AboutWindow(a).value in ids && AsksIt(view, desired, a)
  {
    hide ActionsFor, AsksIt, AboutWindow;
    if ids != [] {
      var rest := ids[..|ids| - 1];
      assert ids == rest + [ids[|ids| - 1]];
      AskedOver(view, desired, rest, a);
      AskedOfOne(view, desired, ids[|ids| - 1], a);
    }
  }

  lemma AskedIsAbout(view: View, desired: Desired, a: Action)
    requires AsksIt(view, desired, a)
    ensures AboutWindow(a).Some? && AboutWindow(a).value in desired
  {
    hide OffBy, SeenAfresh;
  }

  /** With observation fresh, the difference is exactly what the targets ask for. */
  lemma {:induction false} DifferenceIsWhatIsAsked(view: View, desired: Desired, a: Action)
    requires !view.refreshRequired
    ensures a in Difference(view, desired) <==> AsksIt(view, desired, a)
  {
    hide AsksIt, ActionsOver, AboutWindow;
    var ids := Ascending(desired.Keys);
    assert forall id :: id in ids <==> id in Elements(ids);
    AskedOver(view, desired, ids, a);
    if AsksIt(view, desired, a) {
      AskedIsAbout(view, desired, a);
    }
  }
}
