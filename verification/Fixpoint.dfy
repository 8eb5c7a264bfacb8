/** One round of layout, difference and faithful execution leaves nothing for the next to do. */
module Fixpoint {
  import opened Basics
  import opened Geometry
  import opened BspNode
  import opened BspSync
  import opened StatelessLayout
  import opened Observed
  import opened Workspace
  import opened Reconcile
  import opened ApplyLayout

  /**
   * Observation is fresh, no window is closing, no plugin or focus target interferes, rules do not
   * look at where a window is, and a rule's target on a display is a Space of that display.
   */
  ghost predicate Steady(i: Inputs, desired: Desired) {
    && Fresh(i.view) && (forall w | w in i.view.windows :: i.view.windows[w].id == w)
    && i.closing == {} && i.plugins == map[]
    && (forall w | w in desired :: desired[w].focused != Some(true))
    && (forall n | 0 <= n < |i.rules| :: i.rules[n].workspaces == [])
    && (forall n, d | 0 <= n < |i.rules| && i.rules[n].target.Some? :: AtHome(i, d, i.rules[n].target.value))
  }

  /** The workspace's Space, if it is there, is on the workspace's own display. */
  predicate AtHome(i: Inputs, d: DisplayId, name: string) {
    var x := BackingFor(i.reg, d, name);
    x.Some? && x.value in i.view.spaces ==> i.view.spaces[x.value].display == d
  }

  lemma {:induction false} TargetAtHome(i: Inputs, w: Window, d: DisplayId, rules: seq<Rule>)
    requires forall n | 0 <= n < |rules| && rules[n].target.Some? :: AtHome(i, d, rules[n].target.value)
    ensures var x := RuleTarget(i, w, d, rules); x.Some? && x.value in i.view.spaces ==> i.view.spaces[x.value].display == d
  {
    if rules != [] {
      assert rules[0].target.Some? ==> AtHome(i, d, rules[0].target.value);
      TargetAtHome(i, w, d, rules[1..]);
    }
  }

  // --------------------------------------------------------------- one window

  /** A window after the round is the same window, perhaps on the Space rules want and with another frame. */
  ghost predicate MovedOnly(i: Inputs, before: Window, after: Window) {
    && after == before.(space := after.space, frame := after.frame)
    && after.space == if WantedSpace(i, before).Some? then WantedSpace(i, before) else before.space
  }

  lemma {:induction false} SameRules(i: Inputs, j: Inputs, v: Window, w: Window)
    requires j == i.(view := j.view) && v.info == w.info && forall n | 0 <= n < |i.rules| :: i.rules[n].workspaces == []
    ensures forall n | 0 <= n < |i.rules| :: Matches(i, w, i.rules[n]) == Matches(j, v, i.rules[n])
    ensures Ignored(i, w) == Ignored(j, v) && FloatRuled(i, w) == FloatRuled(j, v)
  {
  }

  /** Moved to where rules want it, a window is still wanted there, and on the same display. */
  lemma {:induction false} WantedAgain(i: Inputs, j: Inputs, desired: Desired, w: Window, v: Window)
    requires Steady(i, desired) && MovedOnly(i, w, v)
    requires j == i.(view := j.view) && j.view == i.view.(windows := j.view.windows)
    ensures WantedSpace(j, v) == WantedSpace(i, w)
  {
    SameRules(i, j, v, w);
    var d := DisplayOf(i, w);
    hide Matches, Ignored, RuleTarget;
    if d.Some? {
      TargetAtHome(i, w, d.value, i.rules);
      SameRuleTarget(i, j, w, v, d.value, i.rules);
    }
    if DisplayOf(j, v).Some? {
      SameRuleTarget(i, j, w, v, DisplayOf(j, v).value, i.rules);
    }
  }

  lemma {:induction false} BucketAgain(i: Inputs, j: Inputs, d0: Desired, d1: Desired, w: Window, v: Window)
    requires Steady(i, d0) && MovedOnly(i, w, v)
    requires j == i.(view := j.view) && j.view == i.view.(windows := j.view.windows)
    requires w.id in d1 && d1[w.id].floating == Prior(d0, w.id).floating
    ensures Bucket(j, d1, v) == Bucket(i, d0, w)
  {
    WantedAgain(i, j, d0, w, v);
    SameRules(i, j, v, w);
    hide Matches, Ignored, FloatRuled, WantedSpace, RuleTarget;
    assert forall x :: AreaOf(j, x) == AreaOf(i, x);
  }

  // ----------------------------------------------------------- the whole round

  /** The world after the round: the targets it set, carried out. */
  ghost function Next(i: Inputs, d1: Desired): Inputs {
    i.(view := Obeyed(i.view, d1))
  }

  lemma {:induction false} RoundMovesOnly(i: Inputs, d0: Desired, l0: Layouts, order: seq<WindowId>, w: WindowId)
    requires Steady(i, d0) && w in i.view.windows
    ensures var d1 := NewDesired(i, d0, l0, order);
            var j := Next(i, d1);
            && j.view.windows.Keys == i.view.windows.Keys && d1.Keys == i.view.windows.Keys
            && j.view == i.view.(windows := j.view.windows)
            && MovedOnly(i, i.view.windows[w], j.view.windows[w])
            && d1[w].floating == Prior(d0, w).floating
  {
    hide NewTarget, Difference, WantedSpace, Close, Bucket;
    var d1 := NewDesired(i, d0, l0, order);
    ObeySettles(i.view, d1);
    var v := SettledAll(i.view.windows, d1, d1.Keys)[w];
    assert v == Settled(d1[w], i.view.windows[w]);
    TargetFields(i, d0, l0, order, i.view.windows[w]);
  }

  lemma TargetFields(i: Inputs, d0: Desired, l0: Layouts, order: seq<WindowId>, w: Window)
    ensures var t := NewTarget(i, d0, l0, order, w);
            t.space == WantedSpace(i, w) && t.floating == Prior(d0, w.id).floating && t.focused == Prior(d0, w.id).focused
  {
    hide PlacedFrame, WantedSpace, Bucket;
  }

  /** The same windows, each laid out in the same Space and wanted on the same one. */
  ghost predicate SameBuckets(i: Inputs, d0: Desired, j: Inputs, d1: Desired) {
    && j == i.(view := j.view) && j.view == i.view.(windows := j.view.windows)
    && i.closing == {} && i.plugins == map[]
    && j.view.windows.Keys == i.view.windows.Keys
    && forall w | w in i.view.windows ::
         && Bucket(j, d1, j.view.windows[w]) == Bucket(i, d0, i.view.windows[w])
         && WantedSpace(j, j.view.windows[w]) == WantedSpace(i, i.view.windows[w])
         && j.view.windows[w].id == i.view.windows[w].id == w
  }

  lemma {:induction false} NextSees(i: Inputs, d0: Desired, l0: Layouts, order: seq<WindowId>)
    requires Steady(i, d0)
    ensures var j := Next(i, NewDesired(i, d0, l0, order));
            j.view == i.view.(windows := j.view.windows) && j.view.windows.Keys == i.view.windows.Keys
  {
    hide NewTarget, Difference, WantedSpace, Close, Bucket;
    ObeySettles(i.view, NewDesired(i, d0, l0, order));
  }

  lemma {:induction false} SameBucketsAgain(i: Inputs, d0: Desired, l0: Layouts, order: seq<WindowId>)
    requires Steady(i, d0)
    ensures var d1 := NewDesired(i, d0, l0, order); SameBuckets(i, d0, Next(i, d1), d1)
  {
    hide Bucket, WantedSpace, Difference, NewTarget;
    var d1 := NewDesired(i, d0, l0, order);
    var j := Next(i, d1);
    NextSees(i, d0, l0, order);
    forall w | w in i.view.windows
      ensures w in j.view.windows && w in d1
      ensures Bucket(j, d1, j.view.windows[w]) == Bucket(i, d0, i.view.windows[w])
      ensures WantedSpace(j, j.view.windows[w]) == WantedSpace(i, i.view.windows[w])
      ensures j.view.windows[w].id == w
    {
      RoundMovesOnly(i, d0, l0, order, w);
      BucketAgain(i, j, d0, d1, i.view.windows[w], j.view.windows[w]);
      WantedAgain(i, j, d0, i.view.windows[w], j.view.windows[w]);
    }
  }

  /** The same windows in every Space, laid out in the same way. */
  ghost predicate SameShape(i: Inputs, d0: Desired, j: Inputs, d1: Desired) {
    && Busy(j, d1) == Busy(i, d0) && j.Gap() == i.Gap() && j.Padding() == i.Padding()
    && forall x :: Tiled(j, d1, x) == Tiled(i, d0, x) && TreeSet(j, d1, x) == TreeSet(i, d0, x)
                   && KindOf(j, x) == KindOf(i, x) && AreaOf(j, x) == AreaOf(i, x)
  }

  lemma {:induction false} ShapeFromBuckets(i: Inputs, d0: Desired, j: Inputs, d1: Desired)
    requires SameBuckets(i, d0, j, d1)
    ensures SameShape(i, d0, j, d1)
  {
    forall x: SpaceId ensures KindOf(j, x) == KindOf(i, x) && AreaOf(j, x) == AreaOf(i, x) {
    }
    hide Bucket, WantedSpace, KindOf, AreaOf;
    forall x: SpaceId ensures Tiled(j, d1, x) == Tiled(i, d0, x) && TreeSet(j, d1, x) == TreeSet(i, d0, x) {
    }
    forall w | w in i.view.windows ensures Bucket(j, d1, j.view.windows[w]) == Bucket(i, d0, i.view.windows[w]) {
    }
    assert Busy(j, d1) == Busy(i, d0) by {
      forall x ensures x in Busy(j, d1) <==> x in Busy(i, d0) {
        if x in Busy(i, d0) {
          var w :| w in i.view.windows && Bucket(i, d0, i.view.windows[w]) == Some(x);
          assert Bucket(j, d1, j.view.windows[w]) == Some(x);
        }
        if x in Busy(j, d1) {
          var w :| w in j.view.windows && Bucket(j, d1, j.view.windows[w]) == Some(x);
          assert Bucket(i, d0, i.view.windows[w]) == Some(x);
        }
      }
    }
  }

  ghost predicate PluginsFail(i: Inputs, desired: Desired, order: seq<WindowId>) {
    forall x :: PluginFails(i, desired, order, x)
  }

  lemma {:induction false} NoPluginsFail(i: Inputs, desired: Desired, order: seq<WindowId>)
    requires i.plugins == map[]
    ensures PluginsFail(i, desired, order)
  {
  }

  lemma {:induction false} TreedIs(i: Inputs, desired: Desired, order: seq<WindowId>)
    requires PluginsFail(i, desired, order)
    ensures forall x :: x in Treed(i, desired, order) <==> x in Busy(i, desired) && KindOf(i, x) == Bsp
  {
    hide PluginPlacements, Busy, KindOf, Tiled;
    forall x: SpaceId ensures PluginPlacements(i, x, Keep(order, Tiled(i, desired, x))).None? {
      assert PluginFails(i, desired, order, x);
    }
  }

  lemma FailsThere(i: Inputs, desired: Desired, order: seq<WindowId>, x: SpaceId)
    requires PluginsFail(i, desired, order)
    ensures PluginFails(i, desired, order, x)
  {
  }

  /** A tree in line with its windows is left as it is. */
  lemma {:induction false} TreeAgain(i: Inputs, d0: Desired, l0: Layouts, a: seq<WindowId>, j: Inputs, d1: Desired, x: SpaceId)
    requires SameShape(i, d0, j, d1) && PluginsFail(i, d0, a) && x in Busy(i, d0) && KindOf(i, x) == Bsp
    ensures var l1 := NewLayouts(i, d0, l0, a); x in l1 && NewTree(j, d1, l1, x) == l1[x] == NewTree(i, d0, l0, x)
  {
    hide Treed, Busy, KindOf, Tiled, TreeSet, AreaOf, Synced, PluginsFail;
    TreedIs(i, d0, a);
    SyncedTwice(TreeAt(l0, x), TreeSet(i, d0, x));
  }

  lemma {:induction false} LayoutsAgain(i: Inputs, d0: Desired, l0: Layouts, a: seq<WindowId>, j: Inputs, d1: Desired, b: seq<WindowId>)
    requires SameShape(i, d0, j, d1) && PluginsFail(i, d0, a) && PluginsFail(j, d1, b)
    ensures var l1 := NewLayouts(i, d0, l0, a); NewLayouts(j, d1, l1, b) == l1
  {
    hide Treed, Busy, KindOf, NewTree, PluginsFail, SameShape, NewLayouts;
    var l1 := NewLayouts(i, d0, l0, a);
    SameTreedAgain(i, d0, a, j, d1, b);
    forall x | x in Treed(j, d1, b) ensures x in l1 && NewTree(j, d1, l1, x) == l1[x] {
      TreeAgain(i, d0, l0, a, j, d1, x);
    }
    Untouched(j, d1, l1, b);
  }

  lemma {:induction false} SameTreedAgain(i: Inputs, d0: Desired, a: seq<WindowId>, j: Inputs, d1: Desired, b: seq<WindowId>)
    requires SameShape(i, d0, j, d1) && PluginsFail(i, d0, a) && PluginsFail(j, d1, b)
    ensures forall x | x in Treed(j, d1, b) :: x in Busy(i, d0) && KindOf(i, x) == Bsp
  {
    hide Treed, Busy, KindOf, PluginsFail, Tiled, TreeSet, AreaOf;
    TreedIs(i, d0, a);
    TreedIs(j, d1, b);
  }

  lemma {:induction false} Untouched(i: Inputs, desired: Desired, layouts: Layouts, order: seq<WindowId>)
    requires forall x | x in Treed(i, desired, order) :: x in layouts && NewTree(i, desired, layouts, x) == layouts[x]
    ensures NewLayouts(i, desired, layouts, order) == layouts
  {
    hide Treed, NewTree;
  }

  /** The same frames come out again. */
  lemma {:induction false} PlacementsAgain(i: Inputs, d0: Desired, l0: Layouts, a: seq<WindowId>, j: Inputs, d1: Desired, b: seq<WindowId>, x: SpaceId)
    requires SameShape(i, d0, j, d1) && PluginsFail(i, d0, a) && PluginsFail(j, d1, b) && x in Busy(i, d0)
    ensures PlacementsAt(j, d1, NewLayouts(i, d0, l0, a), x, b) == PlacementsAt(i, d0, l0, x, a)
  {
    hide NewLayouts, NewTree, Busy, KindOf, Tiled, TreeSet, AreaOf, PluginsFail, PluginFails, PlacementsAt, Compute;
    var l1 := NewLayouts(i, d0, l0, a);
    if KindOf(i, x) == Bsp {
      TreeAgain(i, d0, l0, a, j, d1, x);
    }
    FailsThere(i, d0, a, x);
    FailsThere(j, d1, b, x);
    PlacementsBuiltIn(i, d0, l0, x, a);
    PlacementsBuiltIn(j, d1, l1, x, b);
  }

  lemma {:induction false} TargetAgain(i: Inputs, d0: Desired, l0: Layouts, a: seq<WindowId>, j: Inputs, d1: Desired, b: seq<WindowId>, w: WindowId)
    requires SameBuckets(i, d0, j, d1) && w in i.view.windows && w in d1 && d1[w] == NewTarget(i, d0, l0, a, i.view.windows[w])
    ensures NewTarget(j, d1, NewLayouts(i, d0, l0, a), b, j.view.windows[w]) == d1[w]
  {
    hide NewLayouts, Bucket, WantedSpace, PlacementsAt, FrameIn, SameShape, PluginsFail;
    ShapeFromBuckets(i, d0, j, d1);
    NoPluginsFail(i, d0, a);
    NoPluginsFail(j, d1, b);
    var v := i.view.windows[w];
    BucketIsBusy(i, d0, w);
    if Bucket(i, d0, v).Some? {
      PlacementsAgain(i, d0, l0, a, j, d1, b, Bucket(i, d0, v).value);
    }
  }

  lemma BucketIsBusy(i: Inputs, d0: Desired, w: WindowId)
    requires w in i.view.windows
    ensures Bucket(i, d0, i.view.windows[w]).Some? ==> Bucket(i, d0, i.view.windows[w]).value in Busy(i, d0)
  {
    hide Bucket;
  }

  lemma {:induction false} DesiredAgain(i: Inputs, d0: Desired, l0: Layouts, a: seq<WindowId>, j: Inputs, b: seq<WindowId>)
    requires var d1 := NewDesired(i, d0, l0, a); SameBuckets(i, d0, j, d1)
    ensures var d1 := NewDesired(i, d0, l0, a); NewDesired(j, d1, NewLayouts(i, d0, l0, a), b) == d1
  {
    hide NewTarget, NewLayouts, Bucket, WantedSpace;
    var d1 := NewDesired(i, d0, l0, a);
    forall w | w in i.view.windows ensures NewTarget(j, d1, NewLayouts(i, d0, l0, a), b, j.view.windows[w]) == d1[w] {
      TargetAgain(i, d0, l0, a, j, d1, b, w);
    }
  }

  lemma {:induction false} NothingLeft(i: Inputs, d0: Desired, l0: Layouts, a: seq<WindowId>)
    requires Steady(i, d0)
    ensures var d1 := NewDesired(i, d0, l0, a); Difference(Next(i, d1).view, d1) == []
  {
    hide NewTarget, Difference, Obeyed;
    var d1 := NewDesired(i, d0, l0, a);
    forall w | w in d1 ensures d1[w].focused != Some(true) {
      TargetFields(i, d0, l0, a, i.view.windows[w]);
    }
    ObeyedIsMet(i.view, d1);
  }

  /**
   * Lay out, take the difference, carry it out: the next round, however its maps are walked, sets
   * the same targets, leaves every tree alone and has nothing to do.
   */
  lemma {:induction false} RoundReachesFixpoint(i: Inputs, d0: Desired, l0: Layouts, a: seq<WindowId>, b: seq<WindowId>)
    requires Steady(i, d0)
    ensures var d1, l1 := NewDesired(i, d0, l0, a), NewLayouts(i, d0, l0, a);
            var j := Next(i, d1);
            && NewDesired(j, d1, l1, b) == d1
            && NewLayouts(j, d1, l1, b) == l1
            && Difference(j.view, d1) == []
  {
    hide NewDesired, NewLayouts, Next, Difference, SameBuckets, SameShape, PluginsFail;
    var d1 := NewDesired(i, d0, l0, a);
    var j := Next(i, d1);
    SameBucketsAgain(i, d0, l0, a);
    ShapeFromBuckets(i, d0, j, d1);
    SteadyFails(i, d0, j, d1, a, b);
    LayoutsAgain(i, d0, l0, a, j, d1, b);
    DesiredAgain(i, d0, l0, a, j, b);
    NothingLeft(i, d0, l0, a);
  }

  lemma SteadyFails(i: Inputs, d0: Desired, j: Inputs, d1: Desired, a: seq<WindowId>, b: seq<WindowId>)
    requires SameBuckets(i, d0, j, d1)
    ensures PluginsFail(i, d0, a) && PluginsFail(j, d1, b)
  {
    hide Bucket, WantedSpace;
    NoPluginsFail(i, d0, a);
    NoPluginsFail(j, d1, b);
  }
}
