/** What a platform snapshot shows, and the actions the engine answers with. */
module Observed {
  import opened Basics
  import opened Geometry

  type SpaceId = nat

  type DisplayId = nat

  type Instant = nat

  datatype Space = Space(
    id: SpaceId, display: DisplayId, position: nat, labelled: Option<string>,
    focused: bool, isFullscreen: bool, isSystem: bool)
  {
    predicate Ordinary() { !isFullscreen && !isSystem }
  }

  datatype ObservedBool = Yes | No | Unknown

  /** The parts of a window nothing the engine does can change. */
  datatype WindowInfo = WindowInfo(app: string, bundle: Option<string>, title: string)

  datatype Window = Window(
    id: WindowId, info: WindowInfo, frame: Rect, space: Option<SpaceId>, display: Option<DisplayId>,
    focused: bool, minimized: ObservedBool, fullscreen: ObservedBool, managed: ObservedBool, generation: nat)

  datatype Display = Display(id: DisplayId, frame: Rect, focused: bool, isMain: bool)

  datatype View = View(
    generation: nat, refreshRequired: bool,
    windows: map<WindowId, Window>, spaces: map<SpaceId, Space>, displays: map<DisplayId, Display>)
  {
    /** Every entry is filed under its own id, as the engine's maps are built. */
    ghost predicate WellKeyed() {
      && (forall w | w in windows :: windows[w].id == w)
      && (forall s | s in spaces :: spaces[s].id == s)
      && (forall d | d in displays :: displays[d].id == d)
    }

    predicate Ordinary(s: SpaceId) { s in spaces && spaces[s].Ordinary() }

    /** The ordinary Spaces of a display. */
    function OrdinaryOn(d: DisplayId): set<SpaceId> {
      set s | s in spaces && spaces[s].display == d && spaces[s].Ordinary()
    }

    /** Some observed window sits on the Space. */
    predicate Occupied(s: SpaceId) { exists w | w in windows :: windows[w].space == Some(s) }
  }

  datatype Action =
    | RefreshAll
    | RefreshWindow(window: WindowId)
    | SetWindowFrame(window: WindowId, frame: Rect)
    | MoveWindowToSpace(window: WindowId, space: SpaceId)
    | FocusWindow(window: WindowId)
    | FocusSpace(space: SpaceId)
    | FocusSpaceStep(target: SpaceId, delta: int)
    | CreateSpace(anchor: SpaceId)
    | DestroySpace(space: SpaceId)
    | MoveSpace(space: SpaceId, after: SpaceId)
    | SetWindowShadow(window: WindowId, shadow: bool)
  {
    /** Actions that change which Spaces exist or where they sit. */
    predicate IsTopology() { CreateSpace? || DestroySpace? || MoveSpace? }
  }

  /** The order Spaces take slots in. */
  predicate SlotLe(a: Space, b: Space) {
    a.position < b.position || (a.position == b.position && a.id <= b.id)
  }

  lemma SlotTotal(s: set<Space>)
    requires forall a, b | a in s && b in s && a.id == b.id :: a == b
    ensures TotalOn(SlotLe, s)
  {
  }
}
