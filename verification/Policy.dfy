/** Which windows a layout pass arranges and where rules send them, said of the windows' own fields. */
module Policy {
  import opened Basics
  import opened Geometry
  import opened BspNode
  import opened BspSync
  import opened BspGeometry
  import opened StatelessLayout
  import opened PluginValidation
  import opened Observed
  import opened Workspace
  import opened Reconcile
  import opened ApplyLayout
  import opened LayoutPass

  /** The rule is about this window: its pattern fits, and every workspace it names is the one the window's Space goes by. */
  predicate Touches(i: Inputs, w: Window, r: Rule) {
    && r.pattern(w.info)
    && forall n | n in r.workspaces ::
         w.space.Some? && (if w.space.value in i.names then i.names[w.space.value] == n
                           else w.space.value in i.view.spaces && i.view.spaces[w.space.value].labelled == Some(n))
  }

  lemma TouchesIsMatches(i: Inputs, w: Window)
    ensures forall r: Rule :: Touches(i, w, r) <==> Matches(i, w, r)
  {
  }

  /** Nothing the window manager manages and can be seen in place, or under a rule to leave alone or float. */
  predicate Exempt(i: Inputs, w: Window) {
    || w.managed != Yes || w.minimized == Yes || w.fullscreen == Yes
    || (exists n | 0 <= n < |i.rules| :: i.rules[n].manage == Some(false) && Touches(i, w, i.rules[n]))
    || (exists n | 0 <= n < |i.rules| :: i.rules[n].floating == Some(true) && Touches(i, w, i.rules[n]))
  }

  /** Put aside by the user: floating, on an open scratchpad, or about to close. */
  predicate PutAside(i: Inputs, desired: Desired, w: Window) {
    (w.id in desired && desired[w.id].floating) || i.padOpen(w.info) || w.id in i.closing
  }

  // ------------------------------------------------------------------ left out

  lemma {:induction false} AsideHasNoBucket(i: Inputs, desired: Desired, w: Window)
    requires Exempt(i, w) || PutAside(i, desired, w)
    ensures Bucket(i, desired, w) == None
  {
    hide Matches, Touches, WantedSpace, AreaOf;
    TouchesIsMatches(i, w);
  }

  /**
   * A window that is unmanaged, minimized, native fullscreen, put aside or under a rule to leave alone
   * or float gets no frame, and, unless it is about to close, is in no tree the pass brings in line.
   */
  lemma {:induction false} AsideIsNotArranged(i: Inputs, desired: Desired, layouts: Layouts, order: seq<WindowId>, w: WindowId)
    requires w in i.view.windows && i.view.windows[w].id == w && forall v | v in i.view.windows :: i.view.windows[v].id == v
    requires Exempt(i, i.view.windows[w]) || PutAside(i, desired, i.view.windows[w])
    ensures w in NewDesired(i, desired, layouts, order) && NewDesired(i, desired, layouts, order)[w].frame == None
    ensures w !in i.closing ==> forall x | x in Treed(i, desired, order) ::
              x in NewLayouts(i, desired, layouts, order) && w !in TreeLeaves(NewLayouts(i, desired, layouts, order)[x])
  {
    hide Exempt, PutAside, Bucket, WantedSpace, PlacementsAt, FrameIn, Treed, NewTree;
    AsideHasNoBucket(i, desired, i.view.windows[w]);
    if w !in i.closing {
      forall x | x in Treed(i, desired, order) ensures w !in TreeLeaves(NewTree(i, desired, layouts, x)) {
        InTreeIff(i, desired, layouts, x, w);
      }
    }
  }

  /** The tree of a Space holds the windows laid out on it and those closing on it. */
  lemma {:induction false} InTreeIff(i: Inputs, desired: Desired, layouts: Layouts, x: SpaceId, w: WindowId)
    requires w in i.view.windows
    ensures w in TreeLeaves(NewTree(i, desired, layouts, x))
            <==> Bucket(i, desired, i.view.windows[w]) == Some(x) || (w in i.closing && i.view.windows[w].space == Some(x))
  {
    hide Bucket, Synced, TreeLeaves;
    SyncedLeaves(TreeAt(layouts, x), TreeSet(i, desired, x));
    assert w in TreeLeaves(NewTree(i, desired, layouts, x)) <==> w in Elements(TreeLeaves(NewTree(i, desired, layouts, x)));
  }

  // ------------------------------------------------------------------ arranged

  /** What is left of a display between the screen's edges, and of that within the padding. */
  predicate HasRoom(i: Inputs, frame: Rect) {
    var p := i.Screen();
    frame.width - p.left - p.right - i.Padding() * 2.0 > 0.0 && frame.height - p.top - p.bottom - i.Padding() * 2.0 > 0.0
  }

  /** Where that is. */
  function Room(i: Inputs, frame: Rect): Rect {
    var p := i.Screen();
    Rect(frame.x + p.left + i.Padding(), frame.y + p.top + i.Padding(),
         frame.width - p.left - p.right - i.Padding() * 2.0, frame.height - p.top - p.bottom - i.Padding() * 2.0)
  }

  /** The Space is an ordinary one of an observed display with room. */
  predicate Arranges(i: Inputs, x: SpaceId) {
    && x in i.view.spaces && !i.view.spaces[x].isFullscreen && !i.view.spaces[x].isSystem
    && i.view.spaces[x].display in i.view.displays && HasRoom(i, i.view.displays[i.view.spaces[x].display].frame)
  }

  lemma ArrangesHasArea(i: Inputs, x: SpaceId)
    requires Arranges(i, x) && i.Padding() >= 0.0
    ensures AreaOf(i, x).Some? && Inset(AreaOf(i, x).value, i.Padding()) == Some(Room(i, i.view.displays[i.view.spaces[x].display].frame))
  {
  }

  /** Where a window goes that no rule is about. */
  lemma {:induction false} UnruledStays(i: Inputs, desired: Desired, w: Window, x: SpaceId)
    requires !Exempt(i, w) && !PutAside(i, desired, w) && w.space == Some(x) && Arranges(i, x) && i.Padding() >= 0.0
    requires forall n | 0 <= n < |i.rules| :: !Touches(i, w, i.rules[n])
    ensures Bucket(i, desired, w) == Some(x)
  {
    hide Touches, Matches, AreaOf, Arranges, DisplayOf;
    TouchesIsMatches(i, w);
    ArrangesHasArea(i, x);
    var d := DisplayOf(i, w);
    if d.Some? {
      NoRuleSends(i, w, d.value, i.rules);
    }
  }

  lemma {:induction false} NoRuleSends(i: Inputs, w: Window, d: DisplayId, rules: seq<Rule>)
    requires forall n | 0 <= n < |rules| :: !Matches(i, w, rules[n])
    ensures RuleTarget(i, w, d, rules) == None
  {
    hide Matches;
    if rules != [] {
      NoRuleSends(i, w, d, rules[1..]);
    }
  }

  /**
   * A managed window, neither minimized nor native fullscreen, that no rule is about and the user has
   * not put aside, on an ordinary Space with room and the tree layout, is a leaf of that Space's tree
   * and gets the frame the tree gives it.
   */
  lemma {:induction false} ManagedIsTiled(i: Inputs, desired: Desired, layouts: Layouts, order: seq<WindowId>, w: WindowId, x: SpaceId)
    requires w in i.view.windows && i.view.windows[w].id == w && i.Padding() >= 0.0
    requires !Exempt(i, i.view.windows[w]) && !PutAside(i, desired, i.view.windows[w]) && i.view.windows[w].space == Some(x)
    requires forall n | 0 <= n < |i.rules| :: !Touches(i, i.view.windows[w], i.rules[n])
    requires Arranges(i, x) && KindOf(i, x) == Bsp && PluginFails(i, desired, order, x)
    ensures var tree, frame := NewLayouts(i, desired, layouts, order), NewDesired(i, desired, layouts, order)[w].frame;
            && x in tree && w in TreeLeaves(tree[x]) && frame.Some?
            && Placement(w, frame.value) in TreePlacements(tree[x], Room(i, i.view.displays[i.view.spaces[x].display].frame), i.Gap())
  {
    hide Exempt, PutAside, Touches, Bucket, Arranges, KindOf, PluginFails, PlacementsAt, NewTree, TreePlacements, FrameIn, Room, Treed, TreeLeaves, WantedSpace;
    UnruledStays(i, desired, i.view.windows[w], x);
    ArrangesHasArea(i, x);
    InTreeIff(i, desired, layouts, x, w);
    IsTreed(i, desired, order, x, w);
    TreePlaces(i, desired, layouts, x, order);
    TreeFrames(NewTree(i, desired, layouts, x), Inset(AreaOf(i, x).value, i.Padding()).value, i.Gap(), w);
  }

  /**
   * With the insets on, the tree is placed in what screen edges and padding leave of the display, its
   * windows a gap apart; with the insets off, in the whole display and without gaps.
   */
  lemma {:induction false} InsetsDecide(i: Inputs, desired: Desired, layouts: Layouts, order: seq<WindowId>, w: WindowId, x: SpaceId)
    requires w in i.view.windows && i.view.windows[w].id == w && (i.insetsOff || i.settings.padding >= 0.0)
    requires !Exempt(i, i.view.windows[w]) && !PutAside(i, desired, i.view.windows[w]) && i.view.windows[w].space == Some(x)
    requires forall n | 0 <= n < |i.rules| :: !Touches(i, i.view.windows[w], i.rules[n])
    requires Arranges(i, x) && KindOf(i, x) == Bsp && PluginFails(i, desired, order, x)
    ensures var tree, frame := NewLayouts(i, desired, layouts, order), NewDesired(i, desired, layouts, order)[w].frame;
            var s, area := i.settings, i.view.displays[i.view.spaces[x].display].frame;
            && x in tree && frame.Some?
            && (i.insetsOff ==> Placement(w, frame.value) in TreePlacements(tree[x], area, 0.0))
            && (!i.insetsOff ==>
                  Placement(w, frame.value) in TreePlacements(tree[x],
                    Rect(area.x + s.screen.left + s.padding, area.y + s.screen.top + s.padding,
                         area.width - s.screen.left - s.screen.right - s.padding * 2.0,
                         area.height - s.screen.top - s.screen.bottom - s.padding * 2.0), s.gap))
  {
    hide Exempt, PutAside, Touches, Bucket, Arranges, KindOf, PluginFails, PlacementsAt, NewTree, TreePlacements, FrameIn, Treed, TreeLeaves, WantedSpace, NewDesired, NewLayouts;
    ManagedIsTiled(i, desired, layouts, order, w, x);
  }

  lemma IsTreed(i: Inputs, desired: Desired, order: seq<WindowId>, x: SpaceId, w: WindowId)
    requires w in i.view.windows && Bucket(i, desired, i.view.windows[w]) == Some(x) && KindOf(i, x) == Bsp && PluginFails(i, desired, order, x)
    ensures x in Treed(i, desired, order)
  {
    hide Bucket, KindOf, PluginPlacements, Tiled;
    assert x in Busy(i, desired);
  }

  lemma TreePlaces(i: Inputs, desired: Desired, layouts: Layouts, x: SpaceId, order: seq<WindowId>)
    requires KindOf(i, x) == Bsp && PluginFails(i, desired, order, x) && AreaOf(i, x).Some? && Inset(AreaOf(i, x).value, i.Padding()).Some?
    ensures PlacementsAt(i, desired, layouts, x, order)
            == TreePlacements(NewTree(i, desired, layouts, x), Inset(AreaOf(i, x).value, i.Padding()).value, i.Gap())
  {
    hide KindOf, NewTree, TreePlacements, AreaOf, Inset, Tiled, PluginPlacements;
  }

  lemma {:induction false} TreeFrames(root: Option<Node>, area: Rect, gap: real, w: WindowId)
    requires w in TreeLeaves(root)
    ensures var ps := TreePlacements(root, area, gap); FrameIn(ps, w).Some? && Placement(w, FrameIn(ps, w).value) in ps
  {
    var ps := TreePlacements(root, area, gap);
    PlacementsListLeaves(root.value, area, gap);
    var k :| 0 <= k < |Leaves(root.value)| && Leaves(root.value)[k] == w;
    assert ps[k] in ps && ps[k].window == w;
    FoundFrame(ps, w);
  }

  lemma {:induction false} FoundFrame(ps: seq<Placement>, w: WindowId)
    ensures (exists p :: p in ps && p.window == w) ==> FrameIn(ps, w).Some?
    ensures FrameIn(ps, w).Some? ==> Placement(w, FrameIn(ps, w).value) in ps
  {
    if ps != [] && ps[|ps| - 1].window != w {
      FoundFrame(ps[..|ps| - 1], w);
    }
  }

  // --------------------------------------------------------------- sent by rules

  /** The display whose workspaces a rule's target is looked up among. */
  function RuleDisplay(i: Inputs, w: Window): Option<DisplayId> {
    if w.space.Some? && w.space.value in i.view.spaces then Some(i.view.spaces[w.space.value].display)
    else if w.display.Some? then w.display
    else i.fallback
  }

  /** The rule would send the window to this Space: it is about it, and its target workspace shows that Space. */
  predicate Sends(i: Inputs, w: Window, r: Rule, x: SpaceId) {
    && r.target.Some? && Touches(i, w, r) && RuleDisplay(i, w).Some?
    && Key(RuleDisplay(i, w).value, r.target.value) in i.reg
    && i.reg[Key(RuleDisplay(i, w).value, r.target.value)].ActiveSpace() == Some(x)
  }

  lemma {:induction false} FirstRuleSends(i: Inputs, w: Window, d: DisplayId, rules: seq<Rule>, n: nat, x: SpaceId)
    requires RuleDisplay(i, w) == Some(d) && n < |rules| && Sends(i, w, rules[n], x)
    requires forall m, y | 0 <= m < n :: !Sends(i, w, rules[m], y)
    ensures RuleTarget(i, w, d, rules) == Some(x)
    decreases |rules|
  {
    TouchesIsMatches(i, w);
    hide Matches, Touches;
    if n > 0 {
      var b := if rules[0].target.Some? then BackingFor(i.reg, d, rules[0].target.value) else None;
      assert b.Some? ==> !Sends(i, w, rules[0], b.value);
      FirstRuleSends(i, w, d, rules[1..], n - 1, x);
    }
  }

  /**
   * A window not under a rule to leave it alone is wanted where the first rule that would send it
   * somewhere sends it, if that Space is there, and nowhere in particular if no rule would.
   */
  lemma {:induction false} RulesDecide(i: Inputs, desired: Desired, layouts: Layouts, order: seq<WindowId>, w: WindowId, n: nat, x: SpaceId)
    requires w in i.view.windows
    requires !exists m | 0 <= m < |i.rules| :: i.rules[m].manage == Some(false) && Touches(i, i.view.windows[w], i.rules[m])
    requires n <= |i.rules| && forall m, y | 0 <= m < n :: !Sends(i, i.view.windows[w], i.rules[m], y)
    requires n < |i.rules| ==> Sends(i, i.view.windows[w], i.rules[n], x)
    ensures w in NewDesired(i, desired, layouts, order)
    ensures NewDesired(i, desired, layouts, order)[w].space == if n < |i.rules| && x in i.view.spaces then Some(x) else None
  {
    var v := i.view.windows[w];
    TouchesIsMatches(i, v);
    hide Matches, Touches, Bucket, PlacementsAt, FrameIn;
    var d := DisplayOf(i, v);
    if d.Some? {
      if n < |i.rules| {
        FirstRuleSends(i, v, d.value, i.rules, n, x);
      } else {
        NobodySends(i, v, d.value, i.rules);
      }
    }
  }

  lemma {:induction false} NobodySends(i: Inputs, w: Window, d: DisplayId, rules: seq<Rule>)
    requires RuleDisplay(i, w) == Some(d) && forall m, y | 0 <= m < |rules| :: !Sends(i, w, rules[m], y)
    ensures RuleTarget(i, w, d, rules) == None
    decreases |rules|
  {
    TouchesIsMatches(i, w);
    hide Matches, Touches;
    if rules != [] {
      var b := if rules[0].target.Some? then BackingFor(i.reg, d, rules[0].target.value) else None;
      assert b.Some? ==> !Sends(i, w, rules[0], b.value);
      NobodySends(i, w, d, rules[1..]);
    }
  }
}
