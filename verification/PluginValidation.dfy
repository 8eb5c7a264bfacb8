/** The gate a layout plugin's answer has to pass before any of it is used. */
module PluginValidation {
  import opened Basics
  import opened Geometry

  /** A plugin's floating-point number: finite, or an infinity or NaN. */
  datatype Number = Finite(value: real) | NonFinite

  datatype PluginFrame = PluginFrame(x: Number, y: Number, width: Number, height: Number)

  datatype PluginPlacement = PluginPlacement(window: WindowId, frame: PluginFrame)

  datatype PluginRequest = PluginRequest(area: Rect, windows: seq<WindowId>, gap: real)

  datatype Fault =
    | WrongCount
    | Foreign(window: WindowId)
    | Duplicate(window: WindowId)
    | NotFinite(window: WindowId)
    | NotPositive(window: WindowId)
    | OutOfBounds(window: WindowId)

  predicate IsFinite(f: PluginFrame) {
    f.x.Finite? && f.y.Finite? && f.width.Finite? && f.height.Finite?
  }

  function AsRect(f: PluginFrame): Rect
    requires IsFinite(f)
  {
    Rect(f.x.value, f.y.value, f.width.value, f.height.value)
  }

  /** Within twice the requested extent (and one point) on every side of the area. */
  predicate Bounded(f: Rect, area: Rect) {
    var maxW, maxH := area.width * 2.0 + 1.0, area.height * 2.0 + 1.0;
    && f.width <= maxW && f.height <= maxH
    && area.x - maxW <= f.x && area.y - maxH <= f.y
    && f.Right() <= area.x + area.width + maxW && f.Bottom() <= area.y + area.height + maxH
  }

  predicate SoundFrame(p: PluginPlacement, area: Rect) {
    IsFinite(p.frame) && AsRect(p.frame).width > 0.0 && AsRect(p.frame).height > 0.0 && Bounded(AsRect(p.frame), area)
  }

  function Windows(ps: seq<PluginPlacement>): (ws: seq<WindowId>)
    ensures |ws| == |ps| && forall i | 0 <= i < |ps| :: ws[i] == ps[i].window
  {
    seq(|ps|, i requires 0 <= i < |ps| => ps[i].window)
  }

  /** What the source checks: the count, no foreign or repeated window, every frame sound. */
  ghost predicate Acceptable(request: PluginRequest, ps: seq<PluginPlacement>) {
    && |ps| == |request.windows|
    && NoDup(Windows(ps))
    && forall i | 0 <= i < |ps| :: ps[i].window in request.windows && SoundFrame(ps[i], request.area)
  }

  /** One placement's own fault, if it has one. */
  function FaultOf(request: PluginRequest, seen: set<WindowId>, p: PluginPlacement): Option<Fault> {
    if p.window !in request.windows then Some(Foreign(p.window))
    else if p.window in seen then Some(Duplicate(p.window))
    else if !IsFinite(p.frame) then Some(NotFinite(p.window))
    else if AsRect(p.frame).width <= 0.0 || AsRect(p.frame).height <= 0.0 then Some(NotPositive(p.window))
    else if !Bounded(AsRect(p.frame), request.area) then Some(OutOfBounds(p.window))
    else None
  }

  /** Accepts exactly the acceptable answers, and otherwise names the first fault in order. */
  method ValidatePlacements(request: PluginRequest, ps: seq<PluginPlacement>) returns (fault: Option<Fault>)
    ensures fault == None <==> Acceptable(request, ps)
    ensures fault == Some(WrongCount) <==> |ps| != |request.windows|
    ensures fault.Some? && fault.value != WrongCount ==>
              exists i :: 0 <= i < |ps| && FaultOf(request, Elements(Windows(ps[..i])), ps[i]) == fault
                          && forall j | 0 <= j < i :: FaultOf(request, Elements(Windows(ps[..j])), ps[j]) == None
  {
    if |ps| != |request.windows| {
      return Some(WrongCount);
    }
    var seen: set<WindowId> := {};
    for i := 0 to |ps|
      invariant seen == Elements(Windows(ps[..i]))
      invariant NoDup(Windows(ps[..i]))
      invariant forall j | 0 <= j < i :: FaultOf(request, Elements(Windows(ps[..j])), ps[j]) == None
      invariant forall j | 0 <= j < i :: ps[j].window in request.windows && SoundFrame(ps[j], request.area)
    {
      var p := ps[i];
      assert Windows(ps[..i + 1]) == Windows(ps[..i]) + [p.window];
      var found := FaultOf(request, seen, p);
      if found.Some? {
        assert Windows(ps)[..i] == Windows(ps[..i]);
        if found == Some(Duplicate(p.window)) {
          assert p.window in Windows(ps)[..i];
        }
        return found;
      }
      seen := seen + {p.window};
    }
    assert ps[..|ps|] == ps;
    return None;
  }

  /**
   * An accepted answer is a permutation of the request: the request held no duplicates, every
   * requested window is placed exactly once, and nothing else is.
   */
  lemma {:induction false} AcceptedIsPermutation(request: PluginRequest, ps: seq<PluginPlacement>)
    requires Acceptable(request, ps)
    ensures NoDup(request.windows)
    ensures multiset(Windows(ps)) == multiset(request.windows)
  {
    var placed, asked := Windows(ps), request.windows;
    assert Elements(placed) <= Elements(asked);
    NoDupSize(placed);
    SizeBound(asked);
    SubsetSameSize(Elements(placed), Elements(asked));
    forall w ensures multiset(placed)[w] == multiset(asked)[w] {
      CountOnce(placed, w);
      CountOnce(asked, w);
      assert w in placed <==> w in Elements(placed);
      assert w in asked <==> w in Elements(asked);
    }
  }

  lemma {:induction false} SubsetSameSize<T>(a: set<T>, b: set<T>)
    requires a <= b && |a| >= |b|
    ensures a == b
  {
    assert b == a + (b - a);
  }

  /**
   * A frame that passes the gate is no more than twice the area's size and a point, and reaches past
   * each of its sides by no more than that.
   */
  lemma {:induction false} AcceptedStaysNear(request: PluginRequest, ps: seq<PluginPlacement>, i: nat)
    requires Acceptable(request, ps) && i < |ps|
    ensures IsFinite(ps[i].frame)
    ensures var f, a := AsRect(ps[i].frame), request.area;
            && 0.0 < f.width <= 2.0 * a.width + 1.0 && 0.0 < f.height <= 2.0 * a.height + 1.0
            && a.x - (2.0 * a.width + 1.0) <= f.x && f.x + f.width <= a.x + 3.0 * a.width + 1.0
            && a.y - (2.0 * a.height + 1.0) <= f.y && f.y + f.height <= a.y + 3.0 * a.height + 1.0
  {
    assert SoundFrame(ps[i], request.area);
  }

  /** And the gate turns nothing else away: finite, not empty and that near is enough, for a permutation of the request. */
  lemma {:induction false} NearIsAccepted(request: PluginRequest, ps: seq<PluginPlacement>)
    requires NoDup(request.windows) && multiset(Windows(ps)) == multiset(request.windows) && forall i | 0 <= i < |ps| :: IsFinite(ps[i].frame)
    requires forall i | 0 <= i < |ps| ::
               var f, a := AsRect(ps[i].frame), request.area;
               && 0.0 < f.width <= 2.0 * a.width + 1.0 && 0.0 < f.height <= 2.0 * a.height + 1.0
               && a.x - (2.0 * a.width + 1.0) <= f.x && f.x + f.width <= a.x + 3.0 * a.width + 1.0
               && a.y - (2.0 * a.height + 1.0) <= f.y && f.y + f.height <= a.y + 3.0 * a.height + 1.0
    ensures Acceptable(request, ps)
  {
    SameContents(Windows(ps), request.windows);
    forall i | 0 <= i < |ps| ensures ps[i].window in request.windows && SoundFrame(ps[i], request.area) {
      assert Windows(ps)[i] in Windows(ps);
    }
  }

  lemma {:induction false} SameContents(a: seq<WindowId>, b: seq<WindowId>)
    requires multiset(a) == multiset(b) && NoDup(b)
    ensures |a| == |b| && NoDup(a) && forall w :: w in a <==> w in b
  {
    assert |multiset(a)| == |a| && |multiset(b)| == |b|;
    forall w ensures w in a <==> w in b {
      assert w in a <==> w in multiset(a);
      assert w in b <==> w in multiset(b);
    }
    NoDupSize(b);
    SizeBound(a);
    assert Elements(a) == Elements(b);
  }
}
