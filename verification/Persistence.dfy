/** What a restart keeps: logical workspaces and the trees they own, never native ids. */
module Persistence {
  import opened Basics
  import opened Geometry
  import opened Observed
  import opened Workspace
  import opened Lifecycle
  import opened Homes
  import opened TreeOwnership
  import opened TreeSurvival

  /** The saved file: trees of unmanaged Spaces by id, trees of workspaces by key, workspaces without backings. */
  datatype Persisted = Persisted(layouts: map<SpaceId, Layout>, workspaceLayouts: map<Key, Layout>, workspaces: Registry)

  function Unbacked(e: Entry): Entry { e.(backing := None, lastPosition := None) }

  /** Walk the workspaces, moving each one's tree from its own Space to its key. */
  function Claim(t: Trees, reg: Registry, ks: seq<Key>): Trees
    requires forall k | k in ks :: k in reg
    decreases |ks|
  {
    if ks == [] then t
    else
      var home := reg[ks[0]].Home();
      if home.Some? && home.value in t.layouts then
        Claim(Trees(t.layouts - {home.value}, t.parked[ks[0] := t.layouts[home.value]]), reg, ks[1..])
      else Claim(t, reg, ks[1..])
  }

  function SaveState(s: State, order: seq<Key>): Persisted
    requires forall k | k in order :: k in s.reg
  {
    var t := Claim(s.AllTrees(), s.reg, order);
    Persisted(t.layouts, t.parked, map k | k in s.reg :: Unbacked(s.reg[k]))
  }

  /** A new engine with the saved trees and workspaces, and nothing observed yet. */
  function LoadState(p: Persisted, caps: Capabilities, templates: seq<Template>): State {
    State(caps, templates, View(0, true, map[], map[], map[]), p.layouts, p.workspaces, [], [], [], [], map[], None, None,
          map[], map[], false, p.workspaceLayouts, map[], None)
  }

  lemma {:induction false} ClaimServes(t: Trees, reg: Registry, ks: seq<Key>, k: Key)
    requires forall j | j in ks :: j in reg
    requires Distinct(reg) && NoDup(ks) && k in reg && (k in ks ==> k !in t.parked || reg[k].Home() == None)
    ensures var r := Claim(t, reg, ks);
            && (k in ks ==> OwnedIn(t, reg, k) == if k in r.parked then Some(r.parked[k]) else None)
            && (k !in ks ==> OwnedIn(r, reg, k) == OwnedIn(t, reg, k) && (k in r.parked <==> k in t.parked))
    decreases |ks|
  {
    if ks != [] {
      assert ks == [ks[0]] + ks[1..] && NoDup(ks[1..]) && ks[0] !in ks[1..];
      var home := reg[ks[0]].Home();
      var t1 := if home.Some? && home.value in t.layouts then Trees(t.layouts - {home.value}, t.parked[ks[0] := t.layouts[home.value]]) else t;
      if ks[0] != k {
        assert OwnedIn(t1, reg, k) == OwnedIn(t, reg, k);
      }
      ClaimServes(t1, reg, ks[1..], k);
    }
  }

  lemma {:induction false} ClaimShrinks(t: Trees, reg: Registry, ks: seq<Key>)
    requires forall j | j in ks :: j in reg
    ensures forall x | x in Claim(t, reg, ks).layouts :: x in t.layouts
    decreases |ks|
  {
    if ks != [] {
      var home := reg[ks[0]].Home();
      var t1 := if home.Some? && home.value in t.layouts then Trees(t.layouts - {home.value}, t.parked[ks[0] := t.layouts[home.value]]) else t;
      ClaimShrinks(t1, reg, ks[1..]);
    }
  }

  /** Saving and loading leaves every workspace, in whatever order they are walked, the tree it owned. */
  lemma {:induction false} RestartKeepsOwnership(s: State, order: seq<Key>, caps: Capabilities, templates: seq<Template>, k: Key)
    requires Distinct(s.reg) && OneTree(s) && NoDup(order) && Elements(order) == s.reg.Keys && k in s.reg
    requires forall j | j in order :: j in s.reg
    ensures var r := LoadState(SaveState(s, order), caps, templates);
            && r.reg.Keys == s.reg.Keys && Owned(r, k) == Owned(s, k)
            && var before, after := s.reg[k], r.reg[k];
               && after.name == before.name && after.display == before.display && after.ordinal == before.ordinal
               && after.persistent == before.persistent && after.dynamic == before.dynamic
               && after.backing == None && after.lastPosition == None
  {
    assert k in Elements(order);
    HomelessWhenUnbacked(s, k);
    ClaimServes(s.AllTrees(), s.reg, order, k);
    hide Claim;
  }

  lemma {:induction false} ClaimLeavesStrays(t: Trees, reg: Registry, ks: seq<Key>, x: SpaceId)
    requires forall j | j in ks :: j in reg
    ensures var r := Claim(t, reg, ks);
            && (x in r.layouts <==> x in t.layouts && forall j | j in ks :: reg[j].Home() != Some(x))
            && (x in r.layouts ==> r.layouts[x] == t.layouts[x])
    decreases |ks|
  {
    if ks != [] {
      var home := reg[ks[0]].Home();
      var t1 := if home.Some? && home.value in t.layouts then Trees(t.layouts - {home.value}, t.parked[ks[0] := t.layouts[home.value]]) else t;
      ClaimLeavesStrays(t1, reg, ks[1..], x);
      assert forall j :: j in ks <==> j == ks[0] || j in ks[1..];
    }
  }

  /** A tree on a Space no workspace owns stays on that Space, and no other tree is on a Space afterwards. */
  lemma {:induction false} RestartKeepsStrays(s: State, order: seq<Key>, caps: Capabilities, templates: seq<Template>, x: SpaceId)
    requires Elements(order) == s.reg.Keys && forall j | j in order :: j in s.reg
    ensures var r := LoadState(SaveState(s, order), caps, templates);
            && (x in r.layouts <==> x in s.layouts && forall k | k in s.reg :: s.reg[k].Home() != Some(x))
            && (x in r.layouts ==> r.layouts[x] == s.layouts[x])
  {
    ClaimLeavesStrays(s.AllTrees(), s.reg, order, x);
    hide Claim;
    assert forall j :: j in Elements(order) <==> j in order;
  }

  lemma HomelessWhenUnbacked(s: State, k: Key)
    requires OneTree(s) && k in s.reg
    ensures k !in s.parked || s.reg[k].Home() == None
  {
  }

  lemma {:induction false} LoadedIsAnew(p: Persisted, caps: Capabilities, templates: seq<Template>, snap: Snapshot, now: Instant)
    requires NoneBacked(p.workspaces)
    requires forall x | x in snap.spaces :: x !in p.layouts
    ensures AllBegunAnew(LoadState(p, caps, templates), snap, now)
    ensures LoadState(p, caps, templates).awaited == []
  {
  }

  /**
   * Save, load, first snapshot: even if every native Space id is new, each workspace on a display
   * that is still there owns the tree it owned before, on its new Space or parked until it has one.
   */
  lemma {:induction false} TreesSurviveRestart(
      s: State, order: seq<Key>, caps: Capabilities, templates: seq<Template>, snap: Snapshot, now: Instant, visit: Visit, k: Key)
    requires Distinct(s.reg) && OneTree(s) && NoDup(order) && Elements(order) == s.reg.Keys && k in s.reg
    requires forall j | j in order :: j in s.reg
    requires snap.complete && snap.WellKeyed() && WalksAll(LoadState(SaveState(s, order), caps, templates), snap, now, visit)
    requires forall x | x in snap.spaces :: x !in s.layouts
    requires s.reg[k].display in snap.displays
    ensures var loaded := LoadState(SaveState(s, order), caps, templates);
            var r := SnapshotStep(loaded, snap, now, visit).0;
            k in r.reg ==> Owned(r, k) == Owned(s, k) && (k in r.parked <==> Owned(s, k).Some? && r.reg[k].backing == None)
  {
    SavedIsClean(s, order, snap);
    RestartKeepsOwnership(s, order, caps, templates, k);
    hide *;
    var p := SaveState(s, order);
    var loaded := LoadState(p, caps, templates);
    LoadedIsAnew(p, caps, templates, snap, now);
    TreesSurviveReset(loaded, snap, now, visit, k);
  }

  lemma {:induction false} SavedIsClean(s: State, order: seq<Key>, snap: Snapshot)
    requires forall j | j in order :: j in s.reg
    requires forall x | x in snap.spaces :: x !in s.layouts
    ensures NoneBacked(SaveState(s, order).workspaces)
    ensures forall x | x in snap.spaces :: x !in SaveState(s, order).layouts
  {
    ClaimShrinks(s.AllTrees(), s.reg, order);
    hide Claim;
  }
}
