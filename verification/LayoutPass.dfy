/** The layout pass and the edge resize, as the engine runs them over its maps. */
module LayoutPass {
  import opened Basics
  import opened Geometry
  import opened BspNode
  import opened BspSync
  import opened BspGeometry
  import opened BspResize
  import Tree
  import opened StatelessLayout
  import opened PluginValidation
  import opened Observed
  import opened Workspace
  import opened Reconcile
  import opened ApplyLayout

  // -------------------------------------------------- who a layout may place

  lemma {:induction false} ComputePlacesGiven(kind: LayoutKind, area: Rect, windows: seq<WindowId>, gap: real, padding: real)
    requires kind != Bsp
    ensures var c := Compute(kind, area, windows, gap, padding, 0.5); c.Placed? ==> forall p | p in c.placements :: p.window in windows
  {
    hide Even, Offset, Times;
  }

  /** A Space's placements are of its own windows, or of windows closing on it. */
  lemma {:induction false} PlacesOwnWindows(i: Inputs, desired: Desired, layouts: Layouts, x: SpaceId, order: seq<WindowId>)
    ensures forall p | p in PlacementsAt(i, desired, layouts, x, order) :: p.window in Tiled(i, desired, x) || p.window in i.closing
  {
    hide Tiled, KindOf, AreaOf, Synced, PluginName, TreeSet;
    if AreaOf(i, x).Some? {
      var own := Keep(order, Tiled(i, desired, x));
      if PluginPlacements(i, x, own).Some? {
        PluginPlacesGiven(i, x, own);
      } else if KindOf(i, x) == Bsp {
        if Inset(AreaOf(i, x).value, i.Padding()).Some? {
          TreePlacesGiven(i, desired, layouts, x, Inset(AreaOf(i, x).value, i.Padding()).value);
        }
      } else {
        var ids := Ascending(Tiled(i, desired, x));
        assert forall w :: w in ids <==> w in Elements(ids);
        ComputePlacesGiven(KindOf(i, x), AreaOf(i, x).value, ids, i.Gap(), i.Padding());
        hide Compute;
      }
    }
  }

  lemma {:induction false} PluginPlacesGiven(i: Inputs, x: SpaceId, own: seq<WindowId>)
    requires PluginPlacements(i, x, own).Some?
    ensures forall p | p in PluginPlacements(i, x, own).value :: p.window in own
  {
    hide PluginName, AreaOf, SoundFrame;
  }

  lemma {:induction false} TreePlacesGiven(i: Inputs, desired: Desired, layouts: Layouts, x: SpaceId, area: Rect)
    ensures forall p | p in TreePlacements(NewTree(i, desired, layouts, x), area, i.Gap()) :: p.window in Tiled(i, desired, x) || p.window in i.closing
  {
    var root := NewTree(i, desired, layouts, x);
    SyncedLeaves(TreeAt(layouts, x), TreeSet(i, desired, x));
    hide Synced, Tiled;
    if root.Some? {
      PlacementsListLeaves(root.value, area, i.Gap());
      var ps := Placements(root.value, area, i.Gap());
      forall p | p in ps ensures p.window in TreeSet(i, desired, x) {
        var n :| 0 <= n < |ps| && ps[n] == p;
        assert Leaves(root.value)[n] in Elements(TreeLeaves(root));
      }
    }
  }

  // ------------------------------------------------------------- the pass itself

  /** A window's target before its Space has been laid out. */
  function Undecided(i: Inputs, desired: Desired, w: Window): Target {
    Prior(desired, w.id).(space := WantedSpace(i, w), frame := if Bucket(i, desired, w).None? then None else Prior(desired, w.id).frame)
  }

  function Listed(buckets: map<SpaceId, seq<WindowId>>, x: SpaceId): seq<WindowId> {
    if x in buckets then buckets[x] else []
  }

  /** Each Space's list holds its windows among those seen, in the order seen. */
  ghost predicate Bucketed(i: Inputs, before: Desired, seen: seq<WindowId>, buckets: map<SpaceId, seq<WindowId>>) {
    && (forall x | x in buckets :: buckets[x] != [])
    && forall x: SpaceId :: Listed(buckets, x) == Keep(seen, Tiled(i, before, x))
  }

  lemma {:induction false} KeepOneMore(i: Inputs, before: Desired, seen: seq<WindowId>, w: WindowId, x: SpaceId)
    requires w in i.view.windows
    ensures Keep(seen + [w], Tiled(i, before, x))
         == Keep(seen, Tiled(i, before, x)) + if Bucket(i, before, i.view.windows[w]) == Some(x) then [w] else []
  {
    hide Bucket;
    KeepAppend(seen, [w], Tiled(i, before, x));
  }

  /** One window more goes onto its own Space's list and no other. */
  lemma {:induction false} BucketOneMore(i: Inputs, before: Desired, seen: seq<WindowId>, w: WindowId, buckets: map<SpaceId, seq<WindowId>>)
    requires w in i.view.windows && Bucketed(i, before, seen, buckets)
    ensures var x := Bucket(i, before, i.view.windows[w]);
            Bucketed(i, before, seen + [w], if x.None? then buckets else buckets[x.value := Listed(buckets, x.value) + [w]])
  {
    var x := Bucket(i, before, i.view.windows[w]);
    var after := if x.None? then buckets else buckets[x.value := Listed(buckets, x.value) + [w]];
    hide Bucket, Tiled;
    forall y: SpaceId ensures Listed(after, y) == Keep(seen + [w], Tiled(i, before, y)) {
      KeepOneMore(i, before, seen, w, y);
    }
  }

  lemma {:induction false} BusyFrom(i: Inputs, before: Desired, order: seq<WindowId>, buckets: map<SpaceId, seq<WindowId>>)
    requires Elements(order) == i.view.windows.Keys && Bucketed(i, before, order, buckets)
    ensures buckets.Keys == Busy(i, before)
    ensures forall x | x in buckets :: buckets[x] == Keep(order, Tiled(i, before, x))
  {
    hide Bucket;
    forall x: SpaceId ensures x in buckets <==> x in Busy(i, before) {
      assert Listed(buckets, x) == Keep(order, Tiled(i, before, x));
      if x in buckets {
        assert buckets[x][0] in Keep(order, Tiled(i, before, x));
      }
      if x in Busy(i, before) {
        var w :| w in i.view.windows && Bucket(i, before, i.view.windows[w]) == Some(x);
        assert w in Elements(order) && w in Keep(order, Tiled(i, before, x));
      }
    }
  }

  /** The first `n` windows are decided, the rest only cleared. */
  ghost predicate DecidedTo(i: Inputs, before: Desired, order: seq<WindowId>, n: nat, desired: Desired) {
    && desired.Keys == i.view.windows.Keys
    && forall m | 0 <= m < |order| :: order[m] in i.view.windows
         && desired[order[m]] == if m < n then Undecided(i, before, i.view.windows[order[m]]) else Prior(before, order[m]).(space := None)
  }

  lemma {:induction false} DecideOneMore(i: Inputs, before: Desired, order: seq<WindowId>, n: nat, desired: Desired)
    requires DecidedTo(i, before, order, n, desired) && n < |order| && NoDup(order)
    ensures order[n] in i.view.windows
    ensures DecidedTo(i, before, order, n + 1, desired[order[n] := Undecided(i, before, i.view.windows[order[n]])])
  {
    hide Undecided, Prior;
  }

  lemma {:induction false} AllDecided(i: Inputs, before: Desired, order: seq<WindowId>, desired: Desired)
    requires DecidedTo(i, before, order, |order|, desired) && Elements(order) == i.view.windows.Keys
    ensures desired.Keys == i.view.windows.Keys && forall w | w in desired :: desired[w] == Undecided(i, before, i.view.windows[w])
  {
    hide Undecided, Prior;
    forall w | w in desired ensures desired[w] == Undecided(i, before, i.view.windows[w]) {
      assert w in Elements(order);
      var m :| 0 <= m < |order| && order[m] == w;
    }
  }

  lemma {:induction false} OwnWindows(i: Inputs, before: Desired, order: seq<WindowId>, x: SpaceId)
    requires Elements(order) == i.view.windows.Keys && NoDup(order)
    ensures var own := Keep(order, Tiled(i, before, x)); Elements(own) == Tiled(i, before, x) && NoDup(own)
  {
    KeepNoDup(order, Tiled(i, before, x));
    hide Bucket;
    assert forall w | w in Tiled(i, before, x) :: w in Elements(order);
  }

  lemma {:induction false} OwnTreeSet(i: Inputs, before: Desired, order: seq<WindowId>, x: SpaceId)
    requires Elements(order) == i.view.windows.Keys && NoDup(order)
    ensures var own := Keep(order, Tiled(i, before, x));
            (set w | w in own) + (set w | w in i.closing && w in i.view.windows && i.view.windows[w].space == Some(x)) == TreeSet(i, before, x)
  {
    OwnWindows(i, before, order, x);
    hide Tiled, Keep;
  }

  /** Spaces of `spaces` already laid out: their windows have final targets, their trees are in line. */
  ghost predicate LaidOut(i: Inputs, d0: Desired, l0: Layouts, order: seq<WindowId>, spaces: set<SpaceId>, desired: Desired, layouts: Layouts) {
    && desired.Keys == i.view.windows.Keys
    && (forall w | w in i.view.windows :: desired[w] == TargetAfter(i, d0, l0, order, spaces, i.view.windows[w]))
    && layouts == l0 + map x | x in Treed(i, d0, order) * spaces :: NewTree(i, d0, l0, x)
  }

  ghost function TargetAfter(i: Inputs, d0: Desired, l0: Layouts, order: seq<WindowId>, spaces: set<SpaceId>, w: Window): Target {
    var x := Bucket(i, d0, w);
    if x.Some? && x.value in spaces then NewTarget(i, d0, l0, order, w) else Undecided(i, d0, w)
  }

  /** Writing one Space's frames finishes its windows and leaves the others alone. */
  lemma {:induction false} OneSpaceDone(i: Inputs, d0: Desired, l0: Layouts, order: seq<WindowId>, spaces: set<SpaceId>, x: SpaceId,
                                        w: Window, before: Target, ps: seq<Placement>)
    requires w.id in i.view.windows && i.view.windows[w.id] == w && x !in spaces
    requires ps == PlacementsAt(i, d0, l0, x, order) && before == TargetAfter(i, d0, l0, order, spaces, w)
    ensures (if w.id !in i.closing && FrameIn(ps, w.id).Some? then before.(frame := FrameIn(ps, w.id)) else before)
         == TargetAfter(i, d0, l0, order, spaces + {x}, w)
  {
    PlacesOwnWindows(i, d0, l0, x, order);
    FramedIsPlaced(ps, w.id);
    ClosingIsNowhere(i, d0, w);
    hide PlacementsAt, WantedSpace, Bucket, FrameIn;
  }

  lemma {:induction false} FramedIsPlaced(ps: seq<Placement>, w: WindowId)
    ensures FrameIn(ps, w).Some? ==> exists p :: p in ps && p.window == w
  {
    if ps != [] && ps[|ps| - 1].window != w {
      FramedIsPlaced(ps[..|ps| - 1], w);
    }
  }

  lemma ClosingIsNowhere(i: Inputs, d0: Desired, w: Window)
    ensures w.id in i.closing ==> Bucket(i, d0, w) == None
  {
  }

  lemma {:induction false} NothingLaidOut(i: Inputs, d0: Desired, l0: Layouts, order: seq<WindowId>, desired: Desired)
    requires desired.Keys == i.view.windows.Keys && forall w | w in desired :: desired[w] == Undecided(i, d0, i.view.windows[w])
    ensures LaidOut(i, d0, l0, order, {}, desired, l0)
  {
    hide NewTree, Treed, Undecided, Bucket;
  }

  lemma {:induction false} AllLaidOut(i: Inputs, d0: Desired, l0: Layouts, order: seq<WindowId>, desired: Desired, layouts: Layouts)
    requires LaidOut(i, d0, l0, order, Busy(i, d0), desired, layouts)
    ensures desired == NewDesired(i, d0, l0, order) && layouts == NewLayouts(i, d0, l0, order)
  {
    TreedIsBusy(i, d0, order);
    forall w | w in i.view.windows ensures desired[w] == NewTarget(i, d0, l0, order, i.view.windows[w]) {
      DoneWindow(i, d0, l0, order, w);
    }
    hide NewTree, Treed, NewTarget, TargetAfter, Busy;
    assert Treed(i, d0, order) * Busy(i, d0) == Treed(i, d0, order);
  }

  lemma {:induction false} DoneWindow(i: Inputs, d0: Desired, l0: Layouts, order: seq<WindowId>, w: WindowId)
    requires w in i.view.windows
    ensures TargetAfter(i, d0, l0, order, Busy(i, d0), i.view.windows[w]) == NewTarget(i, d0, l0, order, i.view.windows[w])
  {
    InBusy(i, d0, w);
    UndecidedIsNowhere(i, d0, l0, order, i.view.windows[w]);
    hide Bucket, NewTarget, Undecided, Busy;
  }

  lemma NewTreeIs(i: Inputs, d0: Desired, l0: Layouts, x: SpaceId)
    ensures NewTree(i, d0, l0, x) == Synced(TreeAt(l0, x), TreeSet(i, d0, x))
  {
    hide Synced, TreeSet, TreeAt;
  }

  lemma InBusy(i: Inputs, d0: Desired, w: WindowId)
    requires w in i.view.windows
    ensures Bucket(i, d0, i.view.windows[w]).Some? ==> Bucket(i, d0, i.view.windows[w]).value in Busy(i, d0)
  {
    hide Bucket;
  }

  lemma UndecidedIsNowhere(i: Inputs, d0: Desired, l0: Layouts, order: seq<WindowId>, w: Window)
    ensures Bucket(i, d0, w) == None ==> Undecided(i, d0, w) == NewTarget(i, d0, l0, order, w)
  {
    hide Bucket, WantedSpace, PlacementsAt;
  }

  lemma TreedIsBusy(i: Inputs, d0: Desired, order: seq<WindowId>)
    ensures Treed(i, d0, order) <= Busy(i, d0)
  {
    hide KindOf, PluginPlacements, Tiled, Busy;
  }

  lemma BusyHasArea(i: Inputs, d0: Desired, x: SpaceId)
    requires x in Busy(i, d0)
    ensures AreaOf(i, x).Some?
  {
  }

  class LayoutState {
    var desired: Desired
    var layouts: Layouts

    constructor (d: Desired, l: Layouts)
      ensures desired == d && layouts == l
    {
      desired, layouts := d, l;
    }

    /** One window: where rules want it, and which Space lays it out. */
    method PlaceWindow(i: Inputs, w: WindowId, ghost before: Desired) returns (x: Option<SpaceId>)
      requires w in i.view.windows && i.view.windows[w].id == w
      requires w in desired && desired[w] == Prior(before, w).(space := None)
      modifies this`desired
      ensures desired == old(desired)[w := Undecided(i, before, i.view.windows[w])]
      ensures x == Bucket(i, before, i.view.windows[w])
    {
      var win := i.view.windows[w];
      if Ignored(i, win) {
        desired := desired[w := desired[w].(frame := None)];
        return None;
      }
      var wanted := WantedSpace(i, win);
      if wanted.Some? {
        desired := desired[w := desired[w].(space := wanted)];
      }
      if !Tileable(win) || FloatRuled(i, win) || i.padOpen(win.info) || desired[w].floating || w in i.closing {
        desired := desired[w := desired[w].(frame := None)];
        return None;
      }
      x := if wanted.Some? then wanted else win.space;
      if x.None? || AreaOf(i, x.value).None? {
        desired := desired[w := desired[w].(frame := None)];
        return None;
      }
    }

    /** The window loop: every target but its frame, and each Space's windows in the order met. */
    method FillBuckets(i: Inputs, order: seq<WindowId>, ghost before: Desired) returns (buckets: map<SpaceId, seq<WindowId>>)
      requires NoDup(order) && Elements(order) == i.view.windows.Keys && forall w | w in i.view.windows :: i.view.windows[w].id == w
      requires DecidedTo(i, before, order, 0, desired)
      modifies this`desired
      ensures desired.Keys == i.view.windows.Keys && forall w | w in desired :: desired[w] == Undecided(i, before, i.view.windows[w])
      ensures buckets.Keys == Busy(i, before) && forall x | x in buckets :: buckets[x] == Keep(order, Tiled(i, before, x))
    {
      buckets := map[];
      hide Undecided, Bucket, Prior, Busy, Tiled, Elements;
      var n := 0;
      while n < |order|
        invariant 0 <= n <= |order|
        invariant DecidedTo(i, before, order, n, desired)
        invariant Bucketed(i, before, order[..n], buckets)
      {
        var w := order[n];
        DecideOneMore(i, before, order, n, desired);
        BucketOneMore(i, before, order[..n], w, buckets);
        assert order[..n + 1] == order[..n] + [w];
        var x := PlaceWindow(i, w, before);
        if x.Some? {
          buckets := buckets[x.value := Listed(buckets, x.value) + [w]];
        }
        n := n + 1;
      }
      assert order[..n] == order;
      AllDecided(i, before, order, desired);
      BusyFrom(i, before, order, buckets);
    }

    /** Frames are written placement by placement; windows on their way out are skipped. */
    method AssignFrames(i: Inputs, ps: seq<Placement>)
      modifies this`desired
      ensures desired.Keys == old(desired).Keys
      ensures forall w | w in desired ::
                desired[w] == if w !in i.closing && FrameIn(ps, w).Some? then old(desired)[w].(frame := FrameIn(ps, w)) else old(desired)[w]
    {
      for n := 0 to |ps|
        invariant desired.Keys == old(desired).Keys
        invariant forall w | w in desired ::
                    desired[w] == if w !in i.closing && FrameIn(ps[..n], w).Some? then old(desired)[w].(frame := FrameIn(ps[..n], w)) else old(desired)[w]
      {
        assert ps[..n + 1][..n] == ps[..n];
        if ps[n].window !in i.closing && ps[n].window in desired {
          desired := desired[ps[n].window := desired[ps[n].window].(frame := Some(ps[n].frame))];
        }
      }
      assert ps[..|ps|] == ps;
    }

    /** Ask the Space's plugin, if it has one, and take its answer only whole and sound. */
    method AskPlugin(i: Inputs, x: SpaceId, own: seq<WindowId>) returns (ps: Option<seq<Placement>>)
      ensures ps == PluginPlacements(i, x, own)
    {
      var name, area := PluginName(i, x), AreaOf(i, x);
      if name.None? || name.value !in i.plugins || area.None? {
        return None;
      }
      var inner := Inset(area.value, i.Padding());
      if inner.None? {
        return None;
      }
      var request := PluginRequest(inner.value, own, i.Gap());
      var answer := i.plugins[name.value](request);
      if answer.None? {
        return None;
      }
      var fault := ValidatePlacements(request, answer.value);
      if fault.Some? {
        return None;
      }
      assert forall p | p in answer.value :: IsFinite(p.frame);
      return Some(Frames(answer.value));
    }

    /** Bring the Space's persistent tree in line with its windows and the ones closing on it. */
    method SyncTree(x: SpaceId, windows: set<WindowId>)
      modifies this`layouts
      ensures layouts == old(layouts)[x := Synced(TreeAt(old(layouts), x), windows)]
    {
      hide Synced;
      var tree := new Tree.BspTree();
      tree.root := TreeAt(layouts, x);
      tree.SyncWithWindows(windows);
      layouts := layouts[x := tree.root];
    }

    /** One Space: its plugin's layout, its tree's, or a stateless one. */
    method LayOutSpace(i: Inputs, x: SpaceId, own: seq<WindowId>, ghost d0: Desired, ghost l0: Layouts, ghost order: seq<WindowId>)
      returns (ps: seq<Placement>)
      requires Elements(order) == i.view.windows.Keys && NoDup(order) && own == Keep(order, Tiled(i, d0, x))
      requires TreeAt(layouts, x) == TreeAt(l0, x) && AreaOf(i, x).Some?
      modifies this`layouts
      ensures ps == PlacementsAt(i, d0, l0, x, order)
      ensures layouts == if KindOf(i, x) == Bsp && PluginPlacements(i, x, own).None? then old(layouts)[x := NewTree(i, d0, l0, x)] else old(layouts)
    {
      hide PluginPlacements, KindOf, Tiled, TreeSet, Synced, NewTree, Compute, Keep;
      var area := AreaOf(i, x).value;
      var answer := AskPlugin(i, x, own);
      if answer.Some? {
        return answer.value;
      }
      if KindOf(i, x) == Bsp {
        var closing := set w | w in i.closing && w in i.view.windows && i.view.windows[w].space == Some(x);
        var windows := (set w | w in own) + closing;
        OwnTreeSet(i, d0, order, x);
        assert windows == TreeSet(i, d0, x);
        NewTreeIs(i, d0, l0, x);
        SyncTree(x, windows);
        var inner := Inset(area, i.Padding());
        return if inner.None? then [] else TreePlacements(layouts[x], inner.value, i.Gap());
      }
      OwnWindows(i, d0, order, x);
      NatTotal(Elements(own));
      var ids := SortSeq(own, NatLe);
      assert ids == Ascending(Tiled(i, d0, x));
      var c := Compute(KindOf(i, x), area, ids, i.Gap(), i.Padding(), 0.5);
      return if c.Placed? then c.placements else [];
    }

    /** One turn of the Space loop. */
    method LayOutNext(i: Inputs, x: SpaceId, own: seq<WindowId>, ghost d0: Desired, ghost l0: Layouts, ghost order: seq<WindowId>,
                      ghost done: set<SpaceId>)
      requires Elements(order) == i.view.windows.Keys && NoDup(order) && forall w | w in i.view.windows :: i.view.windows[w].id == w
      requires x in Busy(i, d0) && x !in done && own == Keep(order, Tiled(i, d0, x))
      requires LaidOut(i, d0, l0, order, done, desired, layouts)
      modifies this
      ensures LaidOut(i, d0, l0, order, done + {x}, desired, layouts)
    {
      BusyHasArea(i, d0, x);
      TreeUntouched(i, d0, l0, order, done, desired, layouts, x);
      hide LaidOut, Busy, Tiled, Keep, PlacementsAt, PluginPlacements, NewTree, Elements, NoDup, KindOf;
      ghost var d, l := desired, layouts;
      var ps := LayOutSpace(i, x, own, d0, l0, order);
      AssignFrames(i, ps);
      SpaceDone(i, d0, l0, order, done, x, d, l, desired, layouts, ps);
    }

    /** The Space loop, over a map walked in no particular order. */
    method LayOutAll(i: Inputs, buckets: map<SpaceId, seq<WindowId>>, ghost d0: Desired, ghost l0: Layouts, ghost order: seq<WindowId>)
      requires Elements(order) == i.view.windows.Keys && NoDup(order) && forall w | w in i.view.windows :: i.view.windows[w].id == w
      requires buckets.Keys == Busy(i, d0) && forall x | x in buckets :: buckets[x] == Keep(order, Tiled(i, d0, x))
      requires LaidOut(i, d0, l0, order, {}, desired, layouts)
      modifies this
      ensures desired == NewDesired(i, d0, l0, order) && layouts == NewLayouts(i, d0, l0, order)
    {
      hide *;
      var rest := buckets.Keys;
      ghost var done: set<SpaceId> := {};
      while rest != {}
        invariant rest !! done && rest + done == Busy(i, d0)
        invariant LaidOut(i, d0, l0, order, done, desired, layouts)
        decreases |rest|
      {
        var x :| x in rest;
        LayOutNext(i, x, buckets[x], d0, l0, order, done);
        rest, done := rest - {x}, done + {x};
      }
      AllLaidOut(i, d0, l0, order, desired, layouts);
    }

    /** Move the split beside the window in the tree of its Space, if there is one to move. */
    method ResizeInTree(x: SpaceId, w: WindowId, edge: Direction, delta: real, area: Rect, gap: real) returns (frames: Option<seq<Placement>>)
      modifies this`layouts
      ensures var r := ResizedIn(TreeAt(old(layouts), x), w, edge, delta, area, gap);
              if r.Some? then frames == Some(Placements(r.value, area, gap)) && layouts == old(layouts)[x := r]
              else frames == None && layouts == old(layouts)[x := TreeAt(old(layouts), x)]
    {
      hide ResizeEdge, Placements;
      var tree := new Tree.BspTree();
      tree.root := TreeAt(layouts, x);
      layouts := layouts[x := tree.root];
      if !tree.Has(w) {
        return None;
      }
      var changed := tree.ResizeEdge(w, edge, delta, area, gap);
      if !changed {
        return None;
      }
      layouts := layouts[x := tree.root];
      return Some(Placements(tree.root.value, area, gap));
    }

    /** Move one edge of a window: the split beside it if it is tiled, else just its frame. */
    method ResizeWindowEdge(i: Inputs, w: WindowId, edge: Direction, delta: real) returns (answer: ResizeAnswer)
      modifies this`layouts
      ensures var r := ResizedTree(i, desired, old(layouts), w, edge, delta);
              r.Some? ==> answer == Relaid(Placements(r.value.1, BspArea(i, r.value.0).value, i.Gap()))
                          && layouts == old(layouts)[r.value.0 := Some(r.value.1)]
      ensures ResizedTree(i, desired, old(layouts), w, edge, delta).None? ==>
                && (forall x :: TreeAt(layouts, x) == TreeAt(old(layouts), x))
                && answer == if w in i.view.windows then NudgeOrRefuse(Stretched(i.view.windows[w].frame, edge, delta)) else NoSuchWindow
    {
      if w !in i.view.windows {
        return NoSuchWindow;
      }
      var win := i.view.windows[w];
      if !(w in desired && desired[w].floating) && win.space.Some? {
        var x := win.space.value;
        hide ResizedIn, Placements, BspArea, Stretched, NudgeOrRefuse;
        var area := BspArea(i, x);
        if area.Some? {
          var frames := ResizeInTree(x, w, edge, delta, area.value, i.Gap());
          if frames.Some? {
            return Relaid(frames.value);
          }
        }
      }
      return NudgeOrRefuse(Stretched(win.frame, edge, delta));
    }

    /** `apply_layout`: clear what rules own, bucket the windows, lay out each Space. */
    method Run(i: Inputs) returns (ghost order: seq<WindowId>)
      requires forall w | w in i.view.windows :: i.view.windows[w].id == w
      modifies this
      ensures NoDup(order) && Elements(order) == i.view.windows.Keys
      ensures desired == NewDesired(i, old(desired), old(layouts), order)
      ensures layouts == NewLayouts(i, old(desired), old(layouts), order)
    {
      var walk := Enumerate(i.view.windows.Keys);
      order := walk;
      ghost var d0, l0 := desired, layouts;
      desired := map w | w in i.view.windows :: Prior(desired, w).(space := None);
      assert forall w :: w in walk <==> w in Elements(walk);
      var buckets := FillBuckets(i, walk, d0);
      NothingLaidOut(i, d0, l0, walk, desired);
      LayOutAll(i, buckets, d0, l0, walk);
    }
  }

  // ------------------------------------------------------------------- resize

  const GESTURE_MIN_SIZE: real := 40.0

  datatype ResizeAnswer = Relaid(frames: seq<Placement>) | Nudged(frame: Rect) | TooSmall | NoSuchWindow

  /** The area a resize works in: what is left of the display after both insets. */
  function BspArea(i: Inputs, x: SpaceId): Option<Rect> {
    if x !in i.view.spaces || i.view.spaces[x].display !in i.view.displays then None
    else
      var usable := Usable(i.Screen(), i.view.displays[i.view.spaces[x].display].frame);
      if usable.None? then None else Inset(usable.value, i.Padding())
  }

  /** One edge of a frame moved outward. */
  function Stretched(f: Rect, edge: Direction, delta: real): Rect {
    match edge
    case North => f.(y := f.y - delta, height := f.height + delta)
    case South => f.(height := f.height + delta)
    case East => f.(width := f.width + delta)
    case West => f.(x := f.x - delta, width := f.width + delta)
  }

  function NudgeOrRefuse(f: Rect): ResizeAnswer {
    if f.width < GESTURE_MIN_SIZE || f.height < GESTURE_MIN_SIZE then TooSmall else Nudged(f)
  }

  /** The tree after a resize, if the window is in it and a split can take the change. */
  function ResizedIn(root: Option<Node>, w: WindowId, edge: Direction, delta: real, area: Rect, gap: real): (r: Option<Node>) {
    if root.None? || !Contains(root.value, w) then None
    else
      var (n, changed) := ResizeEdge(root.value, w, edge, delta, area, gap);
      if changed then Some(n) else None
  }

  /** The Space whose tree a resize changes, and that tree. */
  function ResizedTree(i: Inputs, desired: Desired, layouts: Layouts, w: WindowId, edge: Direction, delta: real): Option<(SpaceId, Node)> {
    if w !in i.view.windows || Prior(desired, w).floating || i.view.windows[w].space.None? then None
    else
      var x := i.view.windows[w].space.value;
      if BspArea(i, x).None? then None
      else
        var n := ResizedIn(TreeAt(layouts, x), w, edge, delta, BspArea(i, x).value, i.Gap());
        if n.Some? then Some((x, n.value)) else None
  }

  lemma {:induction false} PlacementsStayPut(i: Inputs, desired: Desired, layouts: Layouts, w: WindowId, edge: Direction, delta: real, order: seq<WindowId>)
    requires ResizedTree(i, desired, layouts, w, edge, delta).Some?
    requires var x := i.view.windows[w].space.value;
             && KindOf(i, x) == Bsp && i.view.spaces[x].Ordinary() && PluginPlacements(i, x, Keep(order, Tiled(i, desired, x))).None?
             && TreeSet(i, desired, x) == Elements(TreeLeaves(TreeAt(layouts, x)))
    ensures var (x, n) := ResizedTree(i, desired, layouts, w, edge, delta).value;
            var after := layouts[x := Some(n)];
            && NewTree(i, desired, after, x) == Some(n) && Leaves(n) == TreeLeaves(TreeAt(layouts, x))
            && PlacementsAt(i, desired, after, x, order) == Placements(n, BspArea(i, x).value, i.Gap())
  {
    var (x, n) := ResizedTree(i, desired, layouts, w, edge, delta).value;
    var root := TreeAt(layouts, x).value;
    ResizeIsLocal(root, w, edge, delta, BspArea(i, x).value, i.Gap());
    SyncedUntouched(Some(n), TreeSet(i, desired, x));
    hide PluginPlacements, TreeSet, KindOf, Synced, ResizeEdge, Usable;
  }

  /** A list that places each window once gives every window its one frame. */
  lemma {:induction false} FrameInOnce(ps: seq<Placement>, m: nat)
    requires m < |ps| && forall a, b | 0 <= a < b < |ps| :: ps[a].window != ps[b].window
    ensures FrameIn(ps, ps[m].window) == Some(ps[m].frame)
    decreases |ps|
  {
    if m < |ps| - 1 {
      FrameInOnce(ps[..|ps| - 1], m);
    }
  }

  lemma {:induction false} TreeGivesFrames(n: Node, area: Rect, gap: real)
    requires NoDup(Leaves(n))
    ensures forall p | p in Placements(n, area, gap) :: FrameIn(Placements(n, area, gap), p.window) == Some(p.frame)
  {
    PlacementsListLeaves(n, area, gap);
    var ps := Placements(n, area, gap);
    forall p | p in ps ensures FrameIn(ps, p.window) == Some(p.frame) {
      var m :| 0 <= m < |ps| && ps[m] == p;
      FrameInOnce(ps, m);
    }
  }

  /**
   * The frames a resize answers with are the frames the next layout pass writes, and its tree the
   * tree that pass keeps, as long as the Space's windows are those of its tree and its layout is the
   * tree's: nothing snaps back.
   */
  lemma {:induction false} ResizeStaysPut(i: Inputs, desired: Desired, layouts: Layouts, w: WindowId, edge: Direction, delta: real, order: seq<WindowId>)
    requires ResizedTree(i, desired, layouts, w, edge, delta).Some? && forall v | v in i.view.windows :: i.view.windows[v].id == v
    requires var x := i.view.windows[w].space.value;
             && KindOf(i, x) == Bsp && i.view.spaces[x].Ordinary() && PluginPlacements(i, x, Keep(order, Tiled(i, desired, x))).None?
             && TreeSet(i, desired, x) == Elements(TreeLeaves(TreeAt(layouts, x)))
    ensures var (x, n) := ResizedTree(i, desired, layouts, w, edge, delta).value;
            var after, frames := layouts[x := Some(n)], Placements(n, BspArea(i, x).value, i.Gap());
            var next := NewDesired(i, desired, after, order);
            && x in NewLayouts(i, desired, after, order) && NewLayouts(i, desired, after, order)[x] == Some(n)
            && (forall p | p in frames && p.window !in i.closing ::
                  p.window in next && next[p.window].frame == FrameIn(frames, p.window))
            && (NoDup(Leaves(n)) ==> forall p | p in frames && p.window !in i.closing :: next[p.window].frame == Some(p.frame))
  {
    hide *;
    PlacementsStayPut(i, desired, layouts, w, edge, delta, order);
    var (x, n) := ResizedTree(i, desired, layouts, w, edge, delta).value;
    ResizedIsThere(i, desired, layouts, w, edge, delta);
    var after, frames := layouts[x := Some(n)], Placements(n, BspArea(i, x).value, i.Gap());
    TreeStays(i, desired, after, x, order);
    PlacementsListLeaves(n, BspArea(i, x).value, i.Gap());
    forall p | p in frames && p.window !in i.closing
      ensures p.window in NewDesired(i, desired, after, order) && NewDesired(i, desired, after, order)[p.window].frame == FrameIn(frames, p.window)
    {
      var m :| 0 <= m < |frames| && frames[m] == p;
      assert p.window == Leaves(n)[m];
      FrameInSome(frames, m);
      LeafIsMember(n, m);
      HeldIsPlaced(i, desired, x, p.window);
      FrameWritten(i, desired, after, order, x, p.window);
    }
    if NoDup(Leaves(n)) {
      TreeGivesFrames(n, BspArea(i, x).value, i.Gap());
    }
  }

  lemma ResizedIsThere(i: Inputs, desired: Desired, layouts: Layouts, w: WindowId, edge: Direction, delta: real)
    requires ResizedTree(i, desired, layouts, w, edge, delta).Some?
    ensures var (x, n) := ResizedTree(i, desired, layouts, w, edge, delta).value;
            w in i.view.windows && i.view.windows[w].space == Some(x) && BspArea(i, x).Some? && TreeAt(layouts, x).Some?
            && TreeAt(layouts[x := Some(n)], x) == Some(n) && TreeLeaves(Some(n)) == Leaves(n)
            && forall r: Option<Node> :: r.Some? ==> TreeLeaves(r) == Leaves(r.value)
  {
    hide BspArea;
  }

  lemma LeafIsMember(n: Node, m: nat)
    requires m < |Leaves(n)|
    ensures Leaves(n)[m] in Elements(Leaves(n))
  {
  }

  /** A window a Space's tree holds takes part in its layout, unless it is closing. */
  lemma HeldIsPlaced(i: Inputs, desired: Desired, x: SpaceId, v: WindowId)
    requires v in TreeSet(i, desired, x) && v !in i.closing
    ensures v in i.view.windows && Bucket(i, desired, i.view.windows[v]) == Some(x)
  {
    hide Bucket;
  }

  lemma FrameWritten(i: Inputs, desired: Desired, layouts: Layouts, order: seq<WindowId>, x: SpaceId, v: WindowId)
    requires v in i.view.windows && i.view.windows[v].id == v && Bucket(i, desired, i.view.windows[v]) == Some(x)
    requires FrameIn(PlacementsAt(i, desired, layouts, x, order), v).Some?
    ensures v in NewDesired(i, desired, layouts, order)
    ensures NewDesired(i, desired, layouts, order)[v].frame == FrameIn(PlacementsAt(i, desired, layouts, x, order), v)
  {
    hide Bucket, PlacementsAt, WantedSpace;
  }

  lemma TreeStays(i: Inputs, desired: Desired, layouts: Layouts, x: SpaceId, order: seq<WindowId>)
    requires x in layouts && NewTree(i, desired, layouts, x) == layouts[x]
    ensures x in NewLayouts(i, desired, layouts, order) && NewLayouts(i, desired, layouts, order)[x] == layouts[x]
  {
    hide NewTree, Treed;
  }

  lemma {:induction false} FrameInSome(ps: seq<Placement>, m: nat)
    requires m < |ps|
    ensures FrameIn(ps, ps[m].window).Some?
    decreases |ps|
  {
    if ps[|ps| - 1].window != ps[m].window {
      FrameInSome(ps[..|ps| - 1], m);
    }
  }

  lemma {:induction false} TreeUntouched(i: Inputs, d0: Desired, l0: Layouts, order: seq<WindowId>, spaces: set<SpaceId>,
                                         desired: Desired, layouts: Layouts, x: SpaceId)
    requires LaidOut(i, d0, l0, order, spaces, desired, layouts) && x !in spaces
    ensures TreeAt(layouts, x) == TreeAt(l0, x)
  {
    hide Treed, NewTree, TargetAfter;
  }

  /** One more Space laid out. */
  lemma {:induction false} SpaceDone(i: Inputs, d0: Desired, l0: Layouts, order: seq<WindowId>, spaces: set<SpaceId>, x: SpaceId,
                                     d: Desired, l: Layouts, desired: Desired, layouts: Layouts, ps: seq<Placement>)
    requires LaidOut(i, d0, l0, order, spaces, d, l) && x !in spaces && x in Busy(i, d0) && forall w | w in i.view.windows :: i.view.windows[w].id == w
    requires ps == PlacementsAt(i, d0, l0, x, order) && desired.Keys == d.Keys
    requires forall w | w in desired :: desired[w] == if w !in i.closing && FrameIn(ps, w).Some? then d[w].(frame := FrameIn(ps, w)) else d[w]
    requires layouts == if KindOf(i, x) == Bsp && PluginPlacements(i, x, Keep(order, Tiled(i, d0, x))).None? then l[x := NewTree(i, d0, l0, x)] else l
    ensures LaidOut(i, d0, l0, order, spaces + {x}, desired, layouts)
  {
    hide NewTree, Treed, TargetAfter, PlacementsAt, PluginPlacements, KindOf, Busy, Tiled, FrameIn, Keep;
    forall w | w in i.view.windows ensures desired[w] == TargetAfter(i, d0, l0, order, spaces + {x}, i.view.windows[w]) {
      OneSpaceDone(i, d0, l0, order, spaces, x, i.view.windows[w], d[w], ps);
    }
    TreesDone(i, d0, l0, order, spaces, x, l, layouts);
  }

  lemma {:induction false} TreesDone(i: Inputs, d0: Desired, l0: Layouts, order: seq<WindowId>, spaces: set<SpaceId>, x: SpaceId,
                                     l: Layouts, layouts: Layouts)
    requires l == l0 + (map y | y in Treed(i, d0, order) * spaces :: NewTree(i, d0, l0, y)) && x in Busy(i, d0)
    requires layouts == if KindOf(i, x) == Bsp && PluginPlacements(i, x, Keep(order, Tiled(i, d0, x))).None? then l[x := NewTree(i, d0, l0, x)] else l
    ensures layouts == l0 + map y | y in Treed(i, d0, order) * (spaces + {x}) :: NewTree(i, d0, l0, y)
  {
    hide *;
    TreedHas(i, d0, order, x);
    OneMoreTree(i, d0, l0, Treed(i, d0, order), spaces, x);
  }

  lemma {:induction false} OneMoreTree(i: Inputs, d0: Desired, l0: Layouts, treed: set<SpaceId>, spaces: set<SpaceId>, x: SpaceId)
    ensures l0 + (map y | y in treed * (spaces + {x}) :: NewTree(i, d0, l0, y))
         == if x in treed then (l0 + map y | y in treed * spaces :: NewTree(i, d0, l0, y))[x := NewTree(i, d0, l0, x)]
            else l0 + map y | y in treed * spaces :: NewTree(i, d0, l0, y)
  {
    hide NewTree;
    assert x !in treed ==> treed * (spaces + {x}) == treed * spaces;
    assert x in treed ==> treed * (spaces + {x}) == treed * spaces + {x};
  }

  lemma TreedHas(i: Inputs, d0: Desired, order: seq<WindowId>, x: SpaceId)
    requires x in Busy(i, d0)
    ensures x in Treed(i, d0, order) <==> KindOf(i, x) == Bsp && PluginPlacements(i, x, Keep(order, Tiled(i, d0, x))).None?
  {
    hide KindOf, PluginPlacements, Tiled, Busy;
  }

  /** Where one edge of a frame is, counted outward. */
  function EdgeOf(f: Rect, edge: Direction): real {
    match edge
    case North => -f.y
    case South => f.y + f.height
    case East => f.x + f.width
    case West => -f.x
  }

  /**
   * A window no tree resizes has exactly the named edge moved out by `delta`, the other three stay;
   * it is refused when that leaves it under forty points either way.
   */
  lemma NudgeMovesOneEdge(f: Rect, edge: Direction, delta: real)
    ensures var g := Stretched(f, edge, delta);
            && EdgeOf(g, edge) == EdgeOf(f, edge) + delta && (forall e: Direction | e != edge :: EdgeOf(g, e) == EdgeOf(f, e))
            && NudgeOrRefuse(g) == if g.width < 40.0 || g.height < 40.0 then TooSmall else Nudged(g)
  {
  }
}
