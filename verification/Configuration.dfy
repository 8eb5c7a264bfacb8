/** Bringing the configured names onto the observed displays: who is registered, how, and in which order. */
module Configuration {
  import opened Basics
  import opened Geometry
  import opened Observed
  import opened Workspace
  import opened Remap
  import opened Lifecycle
  import opened Runs
  import opened Homes
  import opened Staying
  import opened ParkedTrees
  import opened Spared
  import opened PersistentRuns
  import opened NameOrder

  // -------------------------------------------------------------- who is registered

  /** The template may put its name on the display; of several main displays it picks one. */
  ghost predicate MayAim(t: Template, displays: map<DisplayId, Display>, d: DisplayId) {
    && d in displays
    && match t.display
       case EveryDisplay => true
       case MainDisplay => displays[d].isMain
       case OneDisplay(id) => id == d
       case NoDisplay => false
  }

  lemma {:induction false} FirstMainIsMain(view: View, order: seq<DisplayId>)
    ensures forall d | d in FirstMain(view, order) :: d in view.displays && view.displays[d].isMain
  {
    if order != [] && !(order[0] in view.displays && view.displays[order[0]].isMain) {
      FirstMainIsMain(view, order[1..]);
    }
  }

  lemma TargetMayBeAimed(t: Template, view: View, order: seq<DisplayId>, d: DisplayId)
    requires d in TargetsOf(t, view, order) && forall e | e in order :: e in view.displays
    ensures MayAim(t, view.displays, d)
  {
    FirstMainIsMain(view, order);
  }

  lemma {:induction false} InstantiateAdds(reg: Registry, next: nat, t: Template, targets: seq<DisplayId>, k: Key)
    requires k in Instantiate(reg, next, t, targets).0 && k !in reg
    ensures k.name == t.name && k.display in targets
    decreases |targets|
  {
    var j := Key(targets[0], t.name);
    if k != j {
      var (reg', next') :=
        if j in reg then (reg[j := reg[j].(persistent := t.persistent, dynamic := false)], next)
        else (reg[j := Entry(t.name, targets[0], t.persistent, false, next, None, None)], next + 1);
      InstantiateAdds(reg', next', t, targets[1..], k);
    }
  }

  lemma {:induction false} NewcomersAimed(reg: Registry, next: nat, ts: seq<Template>, view: View, order: seq<DisplayId>, k: Key)
    requires k in InstantiateAll(reg, next, ts, view, order) && k !in reg && forall e | e in order :: e in view.displays
    ensures exists t :: t in ts && t.name == k.name && MayAim(t, view.displays, k.display)
    decreases |ts|
  {
    hide Instantiate, TargetsOf, MayAim;
    var targets := TargetsOf(ts[0], view, order);
    var (reg', next') := Instantiate(reg, next, ts[0], targets);
    if k in reg' {
      InstantiateAdds(reg, next, ts[0], targets, k);
      TargetMayBeAimed(ts[0], view, order, k.display);
      assert ts[0] in ts;
    } else {
      NewcomersAimed(reg', next', ts[1..], view, order, k);
      var t :| t in ts[1..] && t.name == k.name && MayAim(t, view.displays, k.display);
      assert t in ts;
    }
  }

  /** At most one observed display is the main one. */
  ghost predicate OneMain(displays: map<DisplayId, Display>) {
    forall d, e | d in displays && e in displays && displays[d].isMain && displays[e].isMain :: d == e
  }

  /** Some template puts the workspace's name on its display. */
  ghost predicate IsConfigured(s: State, k: Key) {
    exists t :: t in s.templates && t.name == k.name && MayAim(t, s.view.displays, k.display)
  }

  lemma {:induction false} InstantiateAllAdds(reg: Registry, next: nat, ts: seq<Template>, view: View, order: seq<DisplayId>, k: Key, t: Template)
    requires t in ts && t.name == k.name && AimsAt(t, view.displays, k.display) && k.display in order
    requires k in reg ==> reg[k].display == k.display
    ensures var r := InstantiateAll(reg, next, ts, view, order); k in r && r[k].display == k.display
    decreases |ts|
  {
    hide Instantiate, TargetsOf, AimsAt;
    var targets := TargetsOf(ts[0], view, order);
    var (reg', next') := Instantiate(reg, next, ts[0], targets);
    InstantiateKeepsDisplay(reg, next, ts[0], targets, k);
    if t == ts[0] {
      AimIsTarget(t, view, order, k.display);
      InstantiateReaches(reg, next, t, targets, k);
      InstantiateAllKeeps(reg', next', ts[1..], view, order, k);
    } else {
      InstantiateAllAdds(reg', next', ts[1..], view, order, k, t);
    }
  }

  lemma {:induction false} InstantiateReaches(reg: Registry, next: nat, t: Template, targets: seq<DisplayId>, k: Key)
    requires k.name == t.name && k.display in targets
    ensures k in Instantiate(reg, next, t, targets).0
    decreases |targets|
  {
    var j := Key(targets[0], t.name);
    var (reg', next') :=
      if j in reg then (reg[j := reg[j].(persistent := t.persistent, dynamic := false)], next)
      else (reg[j := Entry(t.name, targets[0], t.persistent, false, next, None, None)], next + 1);
    if k == j {
      InstantiateKeeps(reg', next', t, targets[1..], k);
    } else {
      InstantiateReaches(reg', next', t, targets[1..], k);
    }
  }

  lemma AimIsAim(t: Template, displays: map<DisplayId, Display>, d: DisplayId)
    requires OneMain(displays)
    ensures AimsAt(t, displays, d) <==> MayAim(t, displays, d)
  {
  }

  /**
   * When the set of displays has changed: registered afterwards are exactly the workspaces of
   * observed displays that were registered before or that a template puts there.
   */
  lemma {:induction false} WhoIsRegistered(s: State, visit: Visit, k: Key)
    requires s.synced != Some(s.view.displays.Keys) && OneMain(s.view.displays)
    requires forall d :: d in visit.displays <==> d in s.view.displays
    requires k in s.reg ==> s.reg[k].display == k.display
    ensures k in SyncConfig(s, visit).reg <==> k.display in s.view.displays && (k in s.reg || IsConfigured(s, k))
  {
    hide NextOrdinal, InstantiateAll, MayAim, AimsAt;
    var all := InstantiateAll(s.reg, NextOrdinal(s.reg), s.templates, s.view, visit.displays);
    assert SyncConfig(s, visit).reg == OnDisplays(all, s.view.displays.Keys);
    if k in s.reg {
      InstantiateAllKeeps(s.reg, NextOrdinal(s.reg), s.templates, s.view, visit.displays, k);
    } else if k in all {
      NewcomersAimed(s.reg, NextOrdinal(s.reg), s.templates, s.view, visit.displays, k);
      AllKeepDisplay(s.reg, NextOrdinal(s.reg), s.templates, s.view, visit.displays, k);
    } else if t :| t in s.templates && t.name == k.name && MayAim(t, s.view.displays, k.display) {
      AimIsAim(t, s.view.displays, k.display);
      AimIsThere(t, s.view.displays, k.display);
      InstantiateAllAdds(s.reg, NextOrdinal(s.reg), s.templates, s.view, visit.displays, k, t);
    }
  }

  lemma {:induction false} AllKeepDisplay(reg: Registry, next: nat, ts: seq<Template>, view: View, order: seq<DisplayId>, k: Key)
    requires k in reg ==> reg[k].display == k.display
    ensures var r := InstantiateAll(reg, next, ts, view, order); k in r ==> r[k].display == k.display
    decreases |ts|
  {
    hide Instantiate, TargetsOf;
    if ts != [] {
      InstantiateKeepsDisplay(reg, next, ts[0], TargetsOf(ts[0], view, order), k);
      var (reg', next') := Instantiate(reg, next, ts[0], TargetsOf(ts[0], view, order));
      AllKeepDisplay(reg', next', ts[1..], view, order, k);
    }
  }

  // ------------------------------------------------------------- in which order

  lemma {:induction false} InstantiateOrdinals(reg: Registry, next: nat, t: Template, targets: seq<DisplayId>)
    ensures var (r, n) := Instantiate(reg, next, t, targets);
            && next <= n && reg.Keys <= r.Keys
            && (forall k | k in reg :: r[k].ordinal == reg[k].ordinal && r[k].name == reg[k].name)
            && (forall k | k in r && k !in reg :: next <= r[k].ordinal < n && r[k].name == t.name)
    decreases |targets|
  {
    if targets != [] {
      var j := Key(targets[0], t.name);
      var (reg', next') :=
        if j in reg then (reg[j := reg[j].(persistent := t.persistent, dynamic := false)], next)
        else (reg[j := Entry(t.name, targets[0], t.persistent, false, next, None, None)], next + 1);
      InstantiateOrdinals(reg', next', t, targets[1..]);
    }
  }

  lemma {:induction false} AllOrdinals(reg: Registry, next: nat, ts: seq<Template>, view: View, order: seq<DisplayId>)
    ensures var r := InstantiateAll(reg, next, ts, view, order);
            && reg.Keys <= r.Keys
            && (forall k | k in reg :: r[k].ordinal == reg[k].ordinal && r[k].name == reg[k].name)
            && (forall k | k in r && k !in reg :: next <= r[k].ordinal && r[k].name == k.name)
    decreases |ts|
  {
    hide Instantiate, TargetsOf;
    if ts != [] {
      var targets := TargetsOf(ts[0], view, order);
      var (reg', next') := Instantiate(reg, next, ts[0], targets);
      InstantiateOrdinals(reg, next, ts[0], targets);
      forall k | k in reg' && k !in reg ensures k.name == ts[0].name {
        InstantiateAdds(reg, next, ts[0], targets, k);
      }
      AllOrdinals(reg', next', ts[1..], view, order);
    }
  }

  /** Of two names new to a display, the one configured first has the lower ordinal. */
  lemma {:induction false} ConfigOrder(
      reg: Registry, next: nat, ts: seq<Template>, view: View, order: seq<DisplayId>, i: nat, j: nat, d: DisplayId)
    requires i < j < |ts| && forall a, b | 0 <= a < b < |ts| :: ts[a].name != ts[b].name
    requires Key(d, ts[i].name) !in reg && Key(d, ts[j].name) !in reg
    requires d in TargetsOf(ts[i], view, order) && d in TargetsOf(ts[j], view, order)
    ensures var r := InstantiateAll(reg, next, ts, view, order);
            && Key(d, ts[i].name) in r && Key(d, ts[j].name) in r
            && r[Key(d, ts[i].name)].ordinal < r[Key(d, ts[j].name)].ordinal
    decreases |ts|
  {
    hide Instantiate, TargetsOf;
    var targets := TargetsOf(ts[0], view, order);
    var (reg', next') := Instantiate(reg, next, ts[0], targets);
    var a, b := Key(d, ts[i].name), Key(d, ts[j].name);
    InstantiateOrdinals(reg, next, ts[0], targets);
    if b in reg' {
      InstantiateAdds(reg, next, ts[0], targets, b);
    }
    AllOrdinals(reg', next', ts[1..], view, order);
    if i == 0 {
      InstantiateReaches(reg, next, ts[0], targets, a);
      TargetIsAdded(reg', next', ts[1..], view, order, j - 1, d);
    } else {
      if a in reg' {
        InstantiateAdds(reg, next, ts[0], targets, a);
      }
      ConfigOrder(reg', next', ts[1..], view, order, i - 1, j - 1, d);
    }
  }

  lemma {:induction false} TargetIsAdded(reg: Registry, next: nat, ts: seq<Template>, view: View, order: seq<DisplayId>, i: nat, d: DisplayId)
    requires i < |ts| && d in TargetsOf(ts[i], view, order)
    ensures Key(d, ts[i].name) in InstantiateAll(reg, next, ts, view, order)
    decreases |ts|
  {
    hide Instantiate, TargetsOf;
    var (reg', next') := Instantiate(reg, next, ts[0], TargetsOf(ts[0], view, order));
    if i == 0 {
      InstantiateReaches(reg, next, ts[0], TargetsOf(ts[0], view, order), Key(d, ts[0].name));
      InstantiateAllKeeps(reg', next', ts[1..], view, order, Key(d, ts[0].name));
    } else {
      TargetIsAdded(reg', next', ts[1..], view, order, i - 1, d);
    }
  }

  /** The i-th template puts a name new to the display on it. */
  ghost predicate NewOn(s: State, i: nat, d: DisplayId) {
    i < |s.templates| && AimsAt(s.templates[i], s.view.displays, d) && Key(d, s.templates[i].name) !in s.reg
  }

  /**
   * Names a look brings to a display, when neither is a number, stand in its assignment order in
   * the order they are configured in.
   */
  lemma {:induction false} ConfiguredInOrder(s: State, visit: Visit, i: nat, j: nat, d: DisplayId)
    requires s.synced != Some(s.view.displays.Keys) && forall e :: e in visit.displays <==> e in s.view.displays
    requires forall a, b | 0 <= a < b < |s.templates| :: s.templates[a].name != s.templates[b].name
    requires i < j && NewOn(s, i, d) && NewOn(s, j, d)
    requires ParseU32(s.templates[i].name).None? && ParseU32(s.templates[j].name).None?
    ensures Precedes(KeysFor(SyncConfig(s, visit).reg, d), Key(d, s.templates[i].name), Key(d, s.templates[j].name))
  {
    hide NextOrdinal, InstantiateAll, AimsAt, KeysFor, Precedes, ParseU32, TargetsOf;
    var a, b := Key(d, s.templates[i].name), Key(d, s.templates[j].name);
    var next := NextOrdinal(s.reg);
    AimIsThere(s.templates[i], s.view.displays, d);
    AimIsTarget(s.templates[i], s.view, visit.displays, d);
    AimIsTarget(s.templates[j], s.view, visit.displays, d);
    ConfigOrder(s.reg, next, s.templates, s.view, visit.displays, i, j, d);
    AllKeepDisplay(s.reg, next, s.templates, s.view, visit.displays, a);
    AllKeepDisplay(s.reg, next, s.templates, s.view, visit.displays, b);
    AllOrdinals(s.reg, next, s.templates, s.view, visit.displays);
    var r := SyncConfig(s, visit).reg;
    assert r[a] == InstantiateAll(s.reg, next, s.templates, s.view, visit.displays)[a];
    assert r[b] == InstantiateAll(s.reg, next, s.templates, s.view, visit.displays)[b];
    LowerOrdinalGoesBefore(a, r[a], b, r[b]);
    KeysInOrder(r, d, a, b);
  }

  lemma LowerOrdinalGoesBefore(j: Key, e: Entry, k: Key, f: Entry)
    requires ParseU32(e.name).None? && ParseU32(f.name).None? && e.ordinal < f.ordinal
    ensures GoesBefore(j, e, k, f)
  {
    hide ParseU32, TextBefore;
  }

  // ------------------------------------------------------- names made on demand

  /** A name first used by a command is a volatile, dynamic workspace, and the last of its display's names that are not numbers. */
  lemma {:induction false} NewNameGoesLast(s: State, k: Key, j: Key)
    requires k !in s.reg && j in s.reg && ParseU32(s.reg[j].name).None? && ParseU32(k.name).None?
    ensures var r := EnsureDynamic(s, k).reg;
            && k in r && !r[k].persistent && r[k].dynamic && r[k].name == k.name && r[k].display == k.display && r[k].backing == None
            && j in r && r[j] == s.reg[j] && GoesBefore(j, r[j], k, r[k])
  {
    hide ParseU32, TextBefore;
    var n := NextOrdinal(s.reg);
    assert s.reg[j].ordinal < n;
  }

  // ------------------------------------------------------------ displays, left to right

  lemma RoundedIsNear(v: real)
    ensures v - 0.5 <= Rounded(v) as real <= v + 0.5
  {
  }

  /**
   * Displays are walked from left to right and, in one column, from top to bottom: one that begins a
   * point or more further left, or a point or more further up at the same left edge, is never later.
   */
  lemma {:induction false} StripsLeftToRight(displays: map<DisplayId, Display>, strips: seq<DisplayId>, i: nat, j: nat)
    requires StripWalk(displays, strips) && i < j < |strips|
    ensures strips[i] in displays && strips[j] in displays
    ensures var a, b := displays[strips[i]].frame, displays[strips[j]].frame;
            !(b.x + 1.0 < a.x) && (a.x == b.x ==> !(b.y + 1.0 < a.y))
  {
    assert strips[i] in strips && strips[j] in strips;
    var a, b := displays[strips[i]].frame, displays[strips[j]].frame;
    assert CornerLe(a, b);
    RoundedIsNear(a.x);
    RoundedIsNear(b.x);
    RoundedIsNear(a.y);
    RoundedIsNear(b.y);
    hide Rounded;
  }
}
