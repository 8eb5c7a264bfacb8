/** Which layout arranges a Space's windows, and that each window ends up where that layout puts it. */
module LayoutChoice {
  import opened Basics
  import opened Geometry
  import opened BspNode
  import opened BspSync
  import opened BspGeometry
  import opened StatelessLayout
  import opened PluginValidation
  import opened Observed
  import opened Workspace
  import opened Reconcile
  import opened ApplyLayout
  import opened LayoutPass
  import opened Policy

  // ----------------------------------------------------------- what is configured

  /** The configuration entry for a name is the first that bears it. */
  predicate EntryFor(i: Inputs, name: string, n: nat) {
    && n < |i.settings.workspaces| && i.settings.workspaces[n].name == name
    && forall m | 0 <= m < n :: i.settings.workspaces[m].name != name
  }

  predicate NoEntry(i: Inputs, name: string) {
    forall m | 0 <= m < |i.settings.workspaces| :: i.settings.workspaces[m].name != name
  }

  lemma {:induction false} FirstNamed(ws: seq<WorkspaceConfig>, name: string, n: nat)
    requires n < |ws| && ws[n].name == name && forall m | 0 <= m < n :: ws[m].name != name
    ensures ConfigNamed(ws, name) == Some(ws[n])
    decreases |ws|
  {
    if n > 0 {
      FirstNamed(ws[1..], name, n - 1);
    }
  }

  lemma {:induction false} NoneNamed(ws: seq<WorkspaceConfig>, name: string)
    requires forall m | 0 <= m < |ws| :: ws[m].name != name
    ensures ConfigNamed(ws, name) == None
    decreases |ws|
  {
    if ws != [] {
      NoneNamed(ws[1..], name);
    }
  }

  /** A Space that shows a workspace with an entry of its own is arranged as that entry says. */
  lemma {:induction false} OwnEntryDecides(i: Inputs, x: SpaceId, n: nat)
    requires x in i.names && EntryFor(i, i.names[x], n)
    ensures var e := i.settings.workspaces[n];
            KindOf(i, x) == e.layout && PluginName(i, x) == if e.plugin.Some? then e.plugin else i.settings.plugin
  {
    FirstNamed(i.settings.workspaces, i.names[x], n);
  }

  /** Otherwise its native label may name an entry, which decides the layout but not the plugin. */
  lemma {:induction false} LabelDecides(i: Inputs, x: SpaceId, n: nat)
    requires x in i.names ==> NoEntry(i, i.names[x])
    requires x in i.view.spaces && i.view.spaces[x].labelled.Some? && EntryFor(i, i.view.spaces[x].labelled.value, n)
    ensures KindOf(i, x) == i.settings.workspaces[n].layout && PluginName(i, x) == i.settings.plugin
  {
    if x in i.names {
      NoneNamed(i.settings.workspaces, i.names[x]);
    }
    FirstNamed(i.settings.workspaces, i.view.spaces[x].labelled.value, n);
  }

  /** And failing both, the general settings decide. */
  lemma {:induction false} DefaultDecides(i: Inputs, x: SpaceId)
    requires x in i.names ==> NoEntry(i, i.names[x])
    requires x in i.view.spaces && i.view.spaces[x].labelled.Some? ==> NoEntry(i, i.view.spaces[x].labelled.value)
    ensures KindOf(i, x) == i.settings.layout && PluginName(i, x) == i.settings.plugin
  {
    if x in i.names {
      NoneNamed(i.settings.workspaces, i.names[x]);
    }
    if x in i.view.spaces && i.view.spaces[x].labelled.Some? {
      NoneNamed(i.settings.workspaces, i.view.spaces[x].labelled.value);
    }
  }

  // ------------------------------------------------------------------ where it is laid out

  /** Where a window is laid out: where the first rule that would send it somewhere sends it, else where it is. */
  lemma {:induction false} SentIsLaidOut(i: Inputs, desired: Desired, w: Window, n: nat, x: SpaceId)
    requires !Exempt(i, w) && !PutAside(i, desired, w) && i.Padding() >= 0.0 && Arranges(i, x)
    requires n < |i.rules| && Sends(i, w, i.rules[n], x) && forall m, y | 0 <= m < n :: !Sends(i, w, i.rules[m], y)
    ensures Bucket(i, desired, w) == Some(x)
  {
    hide Touches, Matches, AreaOf, Arranges, RuleTarget;
    TouchesIsMatches(i, w);
    ArrangesHasArea(i, x);
    FirstRuleSends(i, w, RuleDisplay(i, w).value, i.rules, n, x);
    AreaIsThere(i, x);
  }

  lemma AreaIsThere(i: Inputs, x: SpaceId)
    ensures AreaOf(i, x).Some? ==> x in i.view.spaces
  {
  }

  // -------------------------------------------------------------------- by which frames

  /** The plugin's answer for the Space, as its windows are handed over. */
  ghost predicate Answers(i: Inputs, desired: Desired, order: seq<WindowId>, x: SpaceId, answer: seq<PluginPlacement>) {
    && Arranges(i, x) && PluginName(i, x).Some? && PluginName(i, x).value in i.plugins
    && (var request := PluginRequest(Room(i, i.view.displays[i.view.spaces[x].display].frame), Keep(order, Tiled(i, desired, x)), i.Gap());
        i.plugins[PluginName(i, x).value](request) == Some(answer) && Acceptable(request, answer))
  }

  lemma {:induction false} AnswerIsUsed(i: Inputs, desired: Desired, layouts: Layouts, order: seq<WindowId>, x: SpaceId, answer: seq<PluginPlacement>)
    requires i.Padding() >= 0.0 && Answers(i, desired, order, x, answer)
    ensures (forall p | p in answer :: IsFinite(p.frame)) && AreaOf(i, x).Some?
    ensures PlacementsAt(i, desired, layouts, x, order) == Frames(answer)
  {
    hide Tiled, PluginName, BuiltIn, Room, AreaOf;
    ArrangesHasArea(i, x);
    forall p | p in answer ensures IsFinite(p.frame) {
      var n :| 0 <= n < |answer| && answer[n] == p;
    }
  }

  /** A plugin whose whole answer passes the gate places every window of the Space, each where it says. */
  lemma {:induction false} PluginIsObeyed(
      i: Inputs, desired: Desired, layouts: Layouts, order: seq<WindowId>, x: SpaceId, answer: seq<PluginPlacement>, n: nat)
    requires i.Padding() >= 0.0 && Answers(i, desired, order, x, answer) && n < |answer|
    requires forall w | w in i.view.windows :: i.view.windows[w].id == w
    ensures var next := NewDesired(i, desired, layouts, order);
            IsFinite(answer[n].frame) && answer[n].window in next && next[answer[n].window].frame == Some(AsRect(answer[n].frame))
  {
    hide Bucket, PlacementsAt, WantedSpace, AsRect, IsFinite, PluginName, Room, Arranges, AreaOf;
    AnswerIsUsed(i, desired, layouts, order, x, answer);
    AnswerOnce(i, desired, order, x, answer);
    var w := answer[n].window;
    AnswerIsOwn(i, desired, order, x, answer, n);
    var ps := Frames(answer);
    assert ps[n] == Placement(w, AsRect(answer[n].frame));
    assert forall a, b | 0 <= a < b < |ps| :: ps[a].window == answer[a].window && ps[b].window == answer[b].window;
    FrameInOnce(ps, n);
    FrameWritten(i, desired, layouts, order, x, w);
  }

  lemma {:induction false} AnswerIsOwn(i: Inputs, desired: Desired, order: seq<WindowId>, x: SpaceId, answer: seq<PluginPlacement>, n: nat)
    requires Answers(i, desired, order, x, answer) && n < |answer|
    ensures answer[n].window in i.view.windows && Bucket(i, desired, i.view.windows[answer[n].window]) == Some(x)
  {
    hide Bucket, PluginName, Room, Arranges, SoundFrame;
    assert answer[n].window in Keep(order, Tiled(i, desired, x));
  }

  lemma {:induction false} AnswerOnce(i: Inputs, desired: Desired, order: seq<WindowId>, x: SpaceId, answer: seq<PluginPlacement>)
    requires Answers(i, desired, order, x, answer)
    ensures forall a, b | 0 <= a < b < |answer| :: answer[a].window != answer[b].window
  {
    hide Bucket, PluginName, Room, Arranges, SoundFrame, Tiled;
    assert forall a | 0 <= a < |answer| :: PluginValidation.Windows(answer)[a] == answer[a].window;
  }

  /**
   * A Space whose layout keeps no tree, with no plugin's answer to use: its windows in ascending
   * order are laid out by that layout within the screen padding, a master taking half.
   */
  lemma {:induction false} StatelessIsComputed(i: Inputs, desired: Desired, layouts: Layouts, order: seq<WindowId>, x: SpaceId, w: WindowId)
    requires w in i.view.windows && i.view.windows[w].id == w && Bucket(i, desired, i.view.windows[w]) == Some(x)
    requires KindOf(i, x) != Bsp && PluginFails(i, desired, order, x)
    requires AreaOf(i, x).Some? && FrameIn(PlacementsAt(i, desired, layouts, x, order), w).Some?
    ensures var c := Compute(KindOf(i, x), AreaOf(i, x).value, Ascending(Tiled(i, desired, x)), i.Gap(), i.Padding(), 0.5);
            && c.Placed? && NewDesired(i, desired, layouts, order)[w].frame == FrameIn(c.placements, w)
  {
    hide Bucket, WantedSpace, Compute, KindOf, AreaOf, PluginPlacements, Tiled, Ascending;
    FrameWritten(i, desired, layouts, order, x, w);
  }

  // -------------------------------------------------------------------- what is left alone

  /**
   * A pass decides the Space and frame of every window and nothing else: whether it floats or is to
   * be focused stays as it was, and a window its layout has no place for keeps the frame it had.
   */
  lemma {:induction false} PassKeepsTheRest(i: Inputs, desired: Desired, layouts: Layouts, order: seq<WindowId>, w: WindowId)
    requires w in i.view.windows && i.view.windows[w].id == w && w in desired
    ensures var t := NewDesired(i, desired, layouts, order)[w];
            && t.floating == desired[w].floating && t.focused == desired[w].focused
            && (Bucket(i, desired, i.view.windows[w]).Some?
                && FrameIn(PlacementsAt(i, desired, layouts, Bucket(i, desired, i.view.windows[w]).value, order), w).None?
                ==> t.frame == desired[w].frame)
  {
    hide Bucket, WantedSpace, PlacementsAt;
  }
}
