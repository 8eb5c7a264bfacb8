/**
 * Whether two workspaces can come to show one fullscreen Space. The Spaces already shown are
 * gathered before the workspaces are walked, so a Space claimed during the walk is not among them.
 */
module SharedFullscreen {
  import opened Basics
  import opened Geometry
  import opened Observed
  import opened Workspace
  import opened Remap
  import opened Lifecycle

  /** No two workspaces show the same fullscreen Space. */
  ghost predicate Unshared(reg: Registry) {
    forall j, k | j in reg && k in reg && j != k && reg[j].IsFullscreen() && reg[k].IsFullscreen() ::
      reg[j].ActiveSpace() != reg[k].ActiveSpace()
  }

  /** The fullscreen Space, shown by nobody so far, that the first window to leave a workspace's Space went to. */
  ghost function GoesTo(s: State, previous: map<WindowId, Window>, now: Instant, e: Entry): Option<SpaceId> {
    if e.backing.None? || e.IsFullscreen() || Entering(s, previous, e.backing.value.space, now) == {} then None
    else s.view.windows[LeastWindow(Entering(s, previous, e.backing.value.space, now))].space
  }

  lemma {:induction false} GoesToUnshown(s: State, previous: map<WindowId, Window>, now: Instant, e: Entry)
    ensures var f := GoesTo(s, previous, now, e); f.Some? ==> f.value !in OwnedFullscreen(s)
  {
    if e.backing.Some? && !e.IsFullscreen() && Entering(s, previous, e.backing.value.space, now) != {} {
      var w := LeastWindow(Entering(s, previous, e.backing.value.space, now));
      assert w in Entering(s, previous, e.backing.value.space, now);
    }
  }

  /** What a workspace shows as fullscreen afterwards: what it showed, or where its window went. */
  lemma {:induction false} ShowsAfter(s: State, previous: map<WindowId, Window>, now: Instant, e: Entry)
    ensures var r, f := Substituted(s, previous, now, e), GoesTo(s, previous, now, e);
            && (e.IsFullscreen() ==> f == None && (r.IsFullscreen() ==> r == e && !FullscreenLost(s, e.backing.value)))
            && (!e.IsFullscreen() ==> (r.IsFullscreen() <==> f.Some?) && (f.Some? ==> r.ActiveSpace() == f))
  {
    if e.backing.Some? && !e.IsFullscreen() && Entering(s, previous, e.backing.value.space, now) != {} {
      var w := LeastWindow(Entering(s, previous, e.backing.value.space, now));
      assert w in Entering(s, previous, e.backing.value.space, now);
    }
  }

  /** A fullscreen Space that is still there and shown by a workspace counts as shown. */
  lemma KeptIsOwned(s: State, k: Key)
    requires k in s.reg && s.reg[k].IsFullscreen() && !FullscreenLost(s, s.reg[k].backing.value)
    ensures s.reg[k].backing.value.fullscreenSpace in OwnedFullscreen(s)
  {
    assert s.reg[k].ActiveSpace() == Some(s.reg[k].backing.value.fullscreenSpace);
  }

  /** No two workspaces have windows that went to the same fullscreen Space since the last look. */
  ghost predicate NobodyGoesTogether(s: State, previous: map<WindowId, Window>, now: Instant) {
    forall j, k | j in s.reg && k in s.reg && j != k && GoesTo(s, previous, now, s.reg[j]).Some? ::
      GoesTo(s, previous, now, s.reg[j]) != GoesTo(s, previous, now, s.reg[k])
  }

  /**
   * Workspaces showing different fullscreen Spaces go on doing so if and only if no two of them
   * have windows that entered the same one between two looks, as a split view makes them.
   */
  lemma {:induction false} UnsharedIffApart(s: State, previous: map<WindowId, Window>, now: Instant)
    requires Unshared(s.reg)
    ensures Unshared(FullscreenRegistry(s, previous, now)) <==> NobodyGoesTogether(s, previous, now)
  {
    var r := FullscreenRegistry(s, previous, now);
    forall k | k in s.reg
      ensures var e, f := s.reg[k], GoesTo(s, previous, now, s.reg[k]);
              && (e.IsFullscreen() ==> f == None && (r[k].IsFullscreen() ==> r[k] == e && e.ActiveSpace().value in OwnedFullscreen(s)))
              && (!e.IsFullscreen() ==> (r[k].IsFullscreen() <==> f.Some?) && (f.Some? ==> r[k].ActiveSpace() == f && f.value !in OwnedFullscreen(s)))
    {
      ShowsAfter(s, previous, now, s.reg[k]);
      GoesToUnshown(s, previous, now, s.reg[k]);
      if s.reg[k].IsFullscreen() && r[k].IsFullscreen() {
        KeptIsOwned(s, k);
      }
    }
    assert r.Keys == s.reg.Keys;
    hide FullscreenRegistry, GoesTo, OwnedFullscreen;
    if j, k :| j in s.reg && k in s.reg && j != k && GoesTo(s, previous, now, s.reg[j]).Some?
               && GoesTo(s, previous, now, s.reg[j]) == GoesTo(s, previous, now, s.reg[k]) {
      assert r[j].IsFullscreen() && r[k].IsFullscreen() && r[j].ActiveSpace() == r[k].ActiveSpace();
    }
  }
}
