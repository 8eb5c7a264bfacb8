/** Policy for every window: the Space it belongs on and the frame its Space's layout gives it. */
module ApplyLayout {
  import opened Basics
  import opened Geometry
  import opened BspNode
  import opened BspSync
  import opened StatelessLayout
  import opened PluginValidation
  import opened Observed
  import opened Workspace
  import opened Reconcile

  /** A rule: a pattern over what a window is, names of workspaces it must be on, and effects. */
  datatype Rule = Rule(
    pattern: WindowInfo -> bool, workspaces: seq<string>,
    floating: Option<bool>, manage: Option<bool>, target: Option<string>)

  datatype WorkspaceConfig = WorkspaceConfig(name: string, layout: LayoutKind, plugin: Option<string>)

  datatype ScreenPadding = ScreenPadding(top: real, right: real, bottom: real, left: real)

  datatype Settings = Settings(
    gap: real, padding: real, screen: ScreenPadding, layout: LayoutKind, plugin: Option<string>, workspaces: seq<WorkspaceConfig>)

  /** A plugin answers a request with placements or fails. */
  type Plugin = PluginRequest -> Option<seq<PluginPlacement>>

  type Layouts = map<SpaceId, Option<Node>>

  /**
   * Everything policy depends on besides its own state. `names` is the logical name of each Space
   * that shows a workspace; `fallback` the display of windows whose own display is unknown.
   */
  datatype Inputs = Inputs(
    settings: Settings, view: View, reg: Registry, names: map<SpaceId, string>, rules: seq<Rule>,
    padOpen: WindowInfo -> bool, plugins: map<string, Plugin>, insetsOff: bool, closing: set<WindowId>, fallback: Option<DisplayId>)
  {
    function Gap(): real { if insetsOff then 0.0 else settings.gap }

    function Padding(): real { if insetsOff then 0.0 else settings.padding }

    function Screen(): ScreenPadding { if insetsOff then ScreenPadding(0.0, 0.0, 0.0, 0.0) else settings.screen }
  }

  // -------------------------------------------------------------------- rules

  predicate Tileable(w: Window) { w.managed == Yes && w.fullscreen != Yes && w.minimized != Yes }

  /** The name rules know a window's Space by: its workspace's, else its native label. */
  function NameAt(i: Inputs, w: Window): Option<string> {
    if w.space.None? then None
    else if w.space.value in i.names then Some(i.names[w.space.value])
    else if w.space.value in i.view.spaces then i.view.spaces[w.space.value].labelled
    else None
  }

  predicate Matches(i: Inputs, w: Window, r: Rule) {
    r.pattern(w.info) && forall n | n in r.workspaces :: NameAt(i, w) == Some(n)
  }

  predicate Ignored(i: Inputs, w: Window) { exists n | 0 <= n < |i.rules| :: i.rules[n].manage == Some(false) && Matches(i, w, i.rules[n]) }

  predicate FloatRuled(i: Inputs, w: Window) { exists n | 0 <= n < |i.rules| :: i.rules[n].floating == Some(true) && Matches(i, w, i.rules[n]) }

  function DisplayOf(i: Inputs, w: Window): Option<DisplayId> {
    if w.space.Some? && w.space.value in i.view.spaces then Some(i.view.spaces[w.space.value].display)
    else if w.display.Some? then w.display
    else i.fallback
  }

  function BackingFor(reg: Registry, d: DisplayId, name: string): Option<SpaceId> {
    if Key(d, name) in reg then reg[Key(d, name)].ActiveSpace() else None
  }

  /** The first matching rule whose target workspace has a Space on the window's display. */
  function RuleTarget(i: Inputs, w: Window, d: DisplayId, rules: seq<Rule>): Option<SpaceId> {
    if rules == [] then None
    else if rules[0].target.Some? && Matches(i, w, rules[0]) && BackingFor(i.reg, d, rules[0].target.value).Some? then
      BackingFor(i.reg, d, rules[0].target.value)
    else RuleTarget(i, w, d, rules[1..])
  }

  /** Where rules want the window, if that Space is there. */
  function WantedSpace(i: Inputs, w: Window): Option<SpaceId> {
    var d := DisplayOf(i, w);
    if Ignored(i, w) || d.None? then None
    else
      var x := RuleTarget(i, w, d.value, i.rules);
      if x.Some? && x.value in i.view.spaces then x else None
  }

  // ------------------------------------------------------------------ buckets

  /** The part of a display windows may be laid out on. */
  function Usable(p: ScreenPadding, frame: Rect): Option<Rect> {
    var w, h := frame.width - p.left - p.right, frame.height - p.top - p.bottom;
    if w <= 0.0 || h <= 0.0 then None else Some(Rect(frame.x + p.left, frame.y + p.top, w, h))
  }

  function AreaOf(i: Inputs, x: SpaceId): Option<Rect> {
    if x !in i.view.spaces || !i.view.spaces[x].Ordinary() || i.view.spaces[x].display !in i.view.displays then None
    else Usable(i.Screen(), i.view.displays[i.view.spaces[x].display].frame)
  }

  predicate Floats(i: Inputs, desired: Desired, w: Window) {
    || !Tileable(w) || FloatRuled(i, w) || i.padOpen(w.info)
    || (w.id in desired && desired[w.id].floating) || w.id in i.closing
  }

  /** The Space whose layout the window takes part in. */
  function Bucket(i: Inputs, desired: Desired, w: Window): Option<SpaceId> {
    if Ignored(i, w) || Floats(i, desired, w) then None
    else
      var x := if WantedSpace(i, w).Some? then WantedSpace(i, w) else w.space;
      if x.Some? && AreaOf(i, x.value).Some? then x else None
  }

  function Tiled(i: Inputs, desired: Desired, x: SpaceId): set<WindowId> {
    set w | w in i.view.windows && Bucket(i, desired, i.view.windows[w]) == Some(x)
  }

  /** Windows the Space's tree holds: those laid out, and those closing on it. */
  function TreeSet(i: Inputs, desired: Desired, x: SpaceId): set<WindowId> {
    Tiled(i, desired, x) + set w | w in i.closing && w in i.view.windows && i.view.windows[w].space == Some(x)
  }

  // ------------------------------------------------------------------- layouts

  function ConfigNamed(ws: seq<WorkspaceConfig>, name: string): Option<WorkspaceConfig> {
    if ws == [] then None else if ws[0].name == name then Some(ws[0]) else ConfigNamed(ws[1..], name)
  }

  function OwnConfig(i: Inputs, x: SpaceId): Option<WorkspaceConfig> {
    if x in i.names then ConfigNamed(i.settings.workspaces, i.names[x]) else None
  }

  function KindOf(i: Inputs, x: SpaceId): LayoutKind {
    if OwnConfig(i, x).Some? then OwnConfig(i, x).value.layout
    else if x in i.view.spaces && i.view.spaces[x].labelled.Some?
            && ConfigNamed(i.settings.workspaces, i.view.spaces[x].labelled.value).Some? then
      ConfigNamed(i.settings.workspaces, i.view.spaces[x].labelled.value).value.layout
    else i.settings.layout
  }

  function PluginName(i: Inputs, x: SpaceId): Option<string> {
    if OwnConfig(i, x).Some? && OwnConfig(i, x).value.plugin.Some? then OwnConfig(i, x).value.plugin else i.settings.plugin
  }

  function Frames(ps: seq<PluginPlacement>): seq<Placement>
    requires forall p | p in ps :: IsFinite(p.frame)
  {
    seq(|ps|, n requires 0 <= n < |ps| => Placement(ps[n].window, AsRect(ps[n].frame)))
  }

  /** The plugin's placements, when there is a plugin and its whole answer passes the gate. */
  ghost function PluginPlacements(i: Inputs, x: SpaceId, order: seq<WindowId>): Option<seq<Placement>> {
    var area := AreaOf(i, x);
    if PluginName(i, x).None? || PluginName(i, x).value !in i.plugins || area.None? || Inset(area.value, i.Padding()).None? then None
    else
      var request := PluginRequest(Inset(area.value, i.Padding()).value, order, i.Gap());
      var answer := i.plugins[PluginName(i, x).value](request);
      if answer.None? || !Acceptable(request, answer.value) then None
      else
        assert forall p | p in answer.value :: IsFinite(p.frame);
        Some(Frames(answer.value))
  }

  function TreeAt(layouts: Layouts, x: SpaceId): Option<Node> { if x in layouts then layouts[x] else None }

  ghost function NewTree(i: Inputs, desired: Desired, layouts: Layouts, x: SpaceId): Option<Node> {
    Synced(TreeAt(layouts, x), TreeSet(i, desired, x))
  }

  /** The built-in layout of a Space. */
  ghost function BuiltIn(i: Inputs, desired: Desired, layouts: Layouts, x: SpaceId, area: Rect): seq<Placement> {
    if KindOf(i, x) == Bsp then
      match Inset(area, i.Padding())
      case None => []
      case Some(inner) => TreePlacements(NewTree(i, desired, layouts, x), inner, i.Gap())
    else
      match Compute(KindOf(i, x), area, Ascending(Tiled(i, desired, x)), i.Gap(), i.Padding(), 0.5)
      case Placed(ps) => ps
      case Refused(_) => []
  }

  /** The placements of a Space with windows to lay out; `order` is how the window map was walked. */
  ghost function PlacementsAt(i: Inputs, desired: Desired, layouts: Layouts, x: SpaceId, order: seq<WindowId>): seq<Placement> {
    if AreaOf(i, x).None? then []
    else if PluginPlacements(i, x, Keep(order, Tiled(i, desired, x))).Some? then PluginPlacements(i, x, Keep(order, Tiled(i, desired, x))).value
    else BuiltIn(i, desired, layouts, x, AreaOf(i, x).value)
  }

  /** The frame the last placement of a window gives it. */
  function FrameIn(ps: seq<Placement>, w: WindowId): Option<Rect> {
    if ps == [] then None
    else if ps[|ps| - 1].window == w then Some(ps[|ps| - 1].frame)
    else FrameIn(ps[..|ps| - 1], w)
  }

  function Prior(desired: Desired, w: WindowId): Target {
    if w in desired then desired[w] else Target(None, None, None, false)
  }

  /** The frame a window gets in its Space's layout, if its Space lays it out. */
  ghost function PlacedFrame(i: Inputs, desired: Desired, layouts: Layouts, order: seq<WindowId>, w: Window): Option<Rect> {
    var x := Bucket(i, desired, w);
    if x.None? then None else FrameIn(PlacementsAt(i, desired, layouts, x.value, order), w.id)
  }

  /** What becomes of a target: rules own its Space, layouts its frame; a window laid out nowhere has no frame. */
  function Retarget(prior: Target, space: Option<SpaceId>, laidOut: bool, placed: Option<Rect>): Target {
    prior.(space := space, frame := if !laidOut then None else if placed.Some? then placed else prior.frame)
  }

  ghost function NewTarget(i: Inputs, desired: Desired, layouts: Layouts, order: seq<WindowId>, w: Window): Target {
    Retarget(Prior(desired, w.id), WantedSpace(i, w), Bucket(i, desired, w).Some?, PlacedFrame(i, desired, layouts, order, w))
  }

  /** New targets: one for every observed window, none for any other. */
  ghost function NewDesired(i: Inputs, desired: Desired, layouts: Layouts, order: seq<WindowId>): Desired {
    map w | w in i.view.windows :: NewTarget(i, desired, layouts, order, i.view.windows[w])
  }

  /** Spaces that have something to lay out. */
  function Busy(i: Inputs, desired: Desired): set<SpaceId> {
    set w | w in i.view.windows && Bucket(i, desired, i.view.windows[w]).Some? :: Bucket(i, desired, i.view.windows[w]).value
  }

  /** Busy Spaces whose persistent tree is used. */
  ghost function Treed(i: Inputs, desired: Desired, order: seq<WindowId>): set<SpaceId> {
    set x | x in Busy(i, desired) && KindOf(i, x) == Bsp && PluginPlacements(i, x, Keep(order, Tiled(i, desired, x))).None?
  }

  /** Their trees are brought in line with their windows. */
  ghost function NewLayouts(i: Inputs, desired: Desired, layouts: Layouts, order: seq<WindowId>): Layouts {
    layouts + map x | x in Treed(i, desired, order) :: NewTree(i, desired, layouts, x)
  }

  // ------------------------------------------------------- plugins and order

  /** No plugin's answer is used on the Space, as the windows were walked. */
  ghost predicate PluginFails(i: Inputs, desired: Desired, order: seq<WindowId>, x: SpaceId) {
    PluginPlacements(i, x, Keep(order, Tiled(i, desired, x))).None?
  }

  lemma {:induction false} SameExceptPlugins(i: Inputs, j: Inputs, w: Window, desired: Desired)
    requires j == i.(plugins := j.plugins)
    ensures Bucket(j, desired, w) == Bucket(i, desired, w) && WantedSpace(j, w) == WantedSpace(i, w)
  {
    hide Matches, AreaOf, RuleTarget;
    SameMatches(i, j, w);
    var d := DisplayOf(i, w);
    if d.Some? {
      SameRuleTarget(i, j, w, w, d.value, i.rules);
    }
    forall x: SpaceId ensures AreaOf(j, x) == AreaOf(i, x) {
      SamePlaces(i, j, x);
    }
  }

  lemma SameMatches(i: Inputs, j: Inputs, w: Window)
    requires j == i.(plugins := j.plugins)
    ensures forall r: Rule :: Matches(j, w, r) == Matches(i, w, r)
  {
  }

  lemma {:induction false} SameRuleTarget(i: Inputs, j: Inputs, v: Window, w: Window, d: DisplayId, rules: seq<Rule>)
    requires j.reg == i.reg && forall n | 0 <= n < |rules| :: Matches(i, v, rules[n]) == Matches(j, w, rules[n])
    ensures RuleTarget(i, v, d, rules) == RuleTarget(j, w, d, rules)
  {
    if rules != [] {
      SameRuleTarget(i, j, v, w, d, rules[1..]);
    }
  }

  lemma {:induction false} SameBuckets(i: Inputs, j: Inputs, desired: Desired)
    requires j == i.(plugins := j.plugins)
    ensures forall x :: Tiled(j, desired, x) == Tiled(i, desired, x) && TreeSet(j, desired, x) == TreeSet(i, desired, x)
    ensures Busy(j, desired) == Busy(i, desired)
  {
    forall w | w in i.view.windows ensures Bucket(j, desired, i.view.windows[w]) == Bucket(i, desired, i.view.windows[w]) {
      SameExceptPlugins(i, j, i.view.windows[w], desired);
    }
    hide Bucket;
    forall x: SpaceId ensures Tiled(j, desired, x) == Tiled(i, desired, x) {
    }
  }

  /** Without a used plugin a Space's placements come from the built-in layout, whatever the order. */
  lemma {:induction false} PlacementsBuiltIn(i: Inputs, desired: Desired, layouts: Layouts, x: SpaceId, order: seq<WindowId>)
    requires PluginFails(i, desired, order, x)
    ensures PlacementsAt(i, desired, layouts, x, order) == if AreaOf(i, x).None? then [] else BuiltIn(i, desired, layouts, x, AreaOf(i, x).value)
  {
    hide PluginPlacements, BuiltIn;
  }

  lemma SamePlaces(i: Inputs, j: Inputs, x: SpaceId)
    requires j == i.(plugins := j.plugins)
    ensures KindOf(j, x) == KindOf(i, x) && AreaOf(j, x) == AreaOf(i, x)
  {
  }

  lemma {:induction false} SamePlacements(i: Inputs, j: Inputs, desired: Desired, layouts: Layouts, x: SpaceId, a: seq<WindowId>, b: seq<WindowId>)
    requires j == i.(plugins := j.plugins) && PluginFails(i, desired, a, x) && PluginFails(j, desired, b, x)
    ensures PlacementsAt(i, desired, layouts, x, a) == PlacementsAt(j, desired, layouts, x, b)
  {
    hide PlacementsAt, PluginFails, KindOf, AreaOf, Tiled, TreeSet, Busy, Synced, Compute, Bucket;
    SameBuckets(i, j, desired);
    SamePlaces(i, j, x);
    PlacementsBuiltIn(i, desired, layouts, x, a);
    PlacementsBuiltIn(j, desired, layouts, x, b);
  }

  lemma SameTree(i: Inputs, j: Inputs, desired: Desired, layouts: Layouts, x: SpaceId)
    requires j == i.(plugins := j.plugins)
    ensures NewTree(i, desired, layouts, x) == NewTree(j, desired, layouts, x)
  {
    hide Tiled, TreeSet, Busy, Synced, Bucket;
    SameBuckets(i, j, desired);
  }

  /** The window is laid out nowhere, or on a Space where no plugin's answer is used. */
  ghost predicate LaidOutWithout(i: Inputs, desired: Desired, order: seq<WindowId>, w: Window) {
    Bucket(i, desired, w).Some? ==> PluginFails(i, desired, order, Bucket(i, desired, w).value)
  }

  lemma {:induction false} SameTarget(i: Inputs, j: Inputs, desired: Desired, layouts: Layouts, a: seq<WindowId>, b: seq<WindowId>, w: Window)
    requires j == i.(plugins := j.plugins) && LaidOutWithout(i, desired, a, w) && LaidOutWithout(j, desired, b, w)
    ensures NewTarget(i, desired, layouts, a, w) == NewTarget(j, desired, layouts, b, w)
  {
    hide PluginFails, PlacementsAt, Bucket, WantedSpace, Retarget, FrameIn;
    SameExceptPlugins(i, j, w, desired);
    if Bucket(i, desired, w).Some? {
      SamePlacements(i, j, desired, layouts, Bucket(i, desired, w).value, a, b);
    }
  }

  lemma {:induction false} SameTreed(i: Inputs, j: Inputs, desired: Desired, a: seq<WindowId>, b: seq<WindowId>, x: SpaceId)
    requires j == i.(plugins := j.plugins) && PluginFails(i, desired, a, x) && PluginFails(j, desired, b, x)
    ensures x in Treed(i, desired, a) <==> x in Treed(j, desired, b)
  {
    hide PluginPlacements, KindOf, Busy, Tiled, Bucket;
    SameBuckets(i, j, desired);
    SamePlaces(i, j, x);
  }

  lemma {:induction false} SameLayout(i: Inputs, j: Inputs, desired: Desired, layouts: Layouts, a: seq<WindowId>, b: seq<WindowId>, x: SpaceId)
    requires j == i.(plugins := j.plugins) && PluginFails(i, desired, a, x) && PluginFails(j, desired, b, x)
    ensures var p, q := NewLayouts(i, desired, layouts, a), NewLayouts(j, desired, layouts, b);
            (x in p <==> x in q) && (x in p ==> p[x] == q[x])
  {
    hide Treed, NewTree, PluginFails;
    SameTreed(i, j, desired, a, b, x);
    SameTree(i, j, desired, layouts, x);
  }

  lemma NoPluginFails(i: Inputs, desired: Desired, order: seq<WindowId>, x: SpaceId)
    requires i.plugins == map[]
    ensures PluginFails(i, desired, order, x)
  {
  }

  /**
   * On each Space where the plugin's answer fails or is turned away, windows and tree end up
   * exactly as they would with no plugins at all, whatever plugins do on other Spaces.
   */
  lemma {:induction false} FailingPluginIsNoPlugin(i: Inputs, desired: Desired, layouts: Layouts, order: seq<WindowId>, other: seq<WindowId>)
    ensures var without := i.(plugins := map[]);
            var p, q := NewDesired(i, desired, layouts, order), NewDesired(without, desired, layouts, other);
            && p.Keys == q.Keys
            && forall w | w in i.view.windows && LaidOutWithout(i, desired, order, i.view.windows[w]) :: w in p && p[w] == q[w]
    ensures var without := i.(plugins := map[]);
            var p, q := NewLayouts(i, desired, layouts, order), NewLayouts(without, desired, layouts, other);
            forall x | PluginFails(i, desired, order, x) :: (x in p <==> x in q) && (x in p ==> p[x] == q[x])
  {
    hide PluginFails, NewTarget, NewLayouts, Bucket;
    var j := i.(plugins := map[]);
    forall w | w in i.view.windows && LaidOutWithout(i, desired, order, i.view.windows[w])
      ensures NewTarget(i, desired, layouts, order, i.view.windows[w]) == NewTarget(j, desired, layouts, other, i.view.windows[w])
    {
      NoPluginWithout(j, desired, other, i.view.windows[w]);
      SameTarget(i, j, desired, layouts, order, other, i.view.windows[w]);
    }
    forall x | PluginFails(i, desired, order, x)
      ensures var p, q := NewLayouts(i, desired, layouts, order), NewLayouts(j, desired, layouts, other);
              (x in p <==> x in q) && (x in p ==> p[x] == q[x])
    {
      NoPluginFails(j, desired, other, x);
      SameLayout(i, j, desired, layouts, order, other, x);
    }
  }

  lemma NoPluginWithout(i: Inputs, desired: Desired, order: seq<WindowId>, w: Window)
    requires i.plugins == map[]
    ensures LaidOutWithout(i, desired, order, w)
  {
    hide PluginFails, Bucket;
    if Bucket(i, desired, w).Some? {
      NoPluginFails(i, desired, order, Bucket(i, desired, w).value);
    }
  }

  /** Where no plugin's answer is used, the result does not depend on the order the window map is walked in. */
  lemma {:induction false} WindowOrderIsIrrelevant(i: Inputs, desired: Desired, layouts: Layouts, a: seq<WindowId>, b: seq<WindowId>)
    ensures var p, q := NewDesired(i, desired, layouts, a), NewDesired(i, desired, layouts, b);
            && p.Keys == q.Keys
            && forall w | w in i.view.windows && LaidOutWithout(i, desired, a, i.view.windows[w]) && LaidOutWithout(i, desired, b, i.view.windows[w]) ::
                 w in p && p[w] == q[w]
    ensures var p, q := NewLayouts(i, desired, layouts, a), NewLayouts(i, desired, layouts, b);
            forall x | PluginFails(i, desired, a, x) && PluginFails(i, desired, b, x) :: (x in p <==> x in q) && (x in p ==> p[x] == q[x])
  {
    hide PluginFails, LaidOutWithout, NewDesired, NewLayouts;
    FailingPluginIsNoPlugin(i, desired, layouts, a, []);
    FailingPluginIsNoPlugin(i, desired, layouts, b, []);
  }
}
