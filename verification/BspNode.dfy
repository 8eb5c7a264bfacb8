/** The persistent tiling tree as a value, and what each edit does to it. */
module BspNode {
  import opened Basics
  import opened Geometry

  datatype Node =
    | Leaf(window: WindowId)
    | Branch(axis: Axis, ratio: real, left: Node, right: Node)

  function Leaves(n: Node): (s: seq<WindowId>)
    ensures s != []
  {
    match n
    case Leaf(w) => [w]
    case Branch(_, _, l, r) => Leaves(l) + Leaves(r)
  }

  function Contains(n: Node, w: WindowId): (b: bool)
    ensures b <==> w in Leaves(n)
  {
    match n
    case Leaf(v) => v == w
    case Branch(_, _, l, r) => Contains(l, w) || Contains(r, w)
  }

  function TreeLeaves(root: Option<Node>): seq<WindowId> {
    if root.None? then [] else Leaves(root.value)
  }

  ghost predicate Distinct(n: Node) { NoDup(Leaves(n)) }

  lemma {:induction false} DistinctParts(n: Node)
    requires n.Branch?
    ensures Distinct(n) <==>
            Distinct(n.left) && Distinct(n.right) && Elements(Leaves(n.left)) !! Elements(Leaves(n.right))
  {
    NoDupConcat(Leaves(n.left), Leaves(n.right));
  }

  function Remove(n: Node, w: WindowId): Option<Node> {
    match n
    case Leaf(v) => if v == w then None else Some(n)
    case Branch(axis, ratio, l, r) =>
      match (Remove(l, w), Remove(r, w))
      case (None, None) => None
      case (None, Some(r')) => Some(r')
      case (Some(l'), None) => Some(l')
      case (Some(l'), Some(r')) => Some(Branch(axis, ratio, l', r'))
  }

  function Swap(n: Node, a: WindowId, b: WindowId): Node {
    match n
    case Leaf(v) => if v == a then Leaf(b) else if v == b then Leaf(a) else n
    case Branch(axis, ratio, l, r) => Branch(axis, ratio, Swap(l, a, b), Swap(r, a, b))
  }

  function ParityAxis(depth: nat): Axis {
    if depth % 2 == 0 then Vertical else Horizontal
  }

  function InsertRightmost(n: Node, w: WindowId, depth: nat): Node {
    match n
    case Leaf(_) => Branch(ParityAxis(depth), 0.5, n, Leaf(w))
    case Branch(axis, ratio, l, r) => Branch(axis, ratio, l, InsertRightmost(r, w, depth + 1))
  }

  function InsertSibling(n: Node, w: WindowId, target: WindowId, before: bool, depth: nat): Node {
    match n
    case Leaf(v) =>
      if v != target then n
      else if before then Branch(ParityAxis(depth), 0.5, Leaf(w), n)
      else Branch(ParityAxis(depth), 0.5, n, Leaf(w))
    case Branch(axis, ratio, l, r) =>
      if Contains(l, target) then
        Branch(axis, ratio, InsertSibling(l, w, target, before, depth + 1), r)
      else if Contains(r, target) then
        Branch(axis, ratio, l, InsertSibling(r, w, target, before, depth + 1))
      else n
  }

  function Balance(n: Node): Node {
    match n
    case Leaf(_) => n
    case Branch(axis, _, l, r) => Branch(axis, 0.5, Balance(l), Balance(r))
  }

  function Rotate(n: Node): Node {
    match n
    case Leaf(_) => n
    case Branch(axis, ratio, l, r) => Branch(axis.Other(), ratio, Rotate(l), Rotate(r))
  }

  function Mirror(n: Node): Node {
    match n
    case Leaf(_) => n
    case Branch(axis, ratio, l, r) => Branch(axis, ratio, Mirror(r), Mirror(l))
  }

  function Placements(n: Node, area: Rect, gap: real): (s: seq<Placement>)
    ensures |s| == |Leaves(n)|
  {
    match n
    case Leaf(w) => [Placement(w, area)]
    case Branch(axis, ratio, l, r) =>
      var (first, second) := Split(area, gap, axis, ratio);
      Placements(l, first, gap) + Placements(r, second, gap)
  }

  function TreePlacements(root: Option<Node>, area: Rect, gap: real): seq<Placement> {
    if root.None? then [] else Placements(root.value, area, gap)
  }

  /** Does `edge` of a window in the given child lie on this split's boundary? */
  predicate OnBoundary(axis: Axis, inLeft: bool, edge: Direction) {
    match edge
    case East => axis == Vertical && inLeft
    case South => axis == Horizontal && inLeft
    case West => axis == Vertical && !inLeft
    case North => axis == Horizontal && !inLeft
  }

  /** Resize one window edge outward by `delta`: the edited tree and whether a split moved. */
  function ResizeEdge(n: Node, w: WindowId, edge: Direction, delta: real, area: Rect, gap: real)
    : (Node, bool)
  {
    match n
    case Leaf(_) => (n, false)
    case Branch(axis, ratio, l, r) =>
      var (first, second) := Split(area, gap, axis, ratio);
      var inLeft := Contains(l, w);
      if !inLeft && !Contains(r, w) then (n, false)
      else
        var (child, changed) :=
          if inLeft then ResizeEdge(l, w, edge, delta, first, gap)
          else ResizeEdge(r, w, edge, delta, second, gap);
        var n' := if inLeft then Branch(axis, ratio, child, r) else Branch(axis, ratio, l, child);
        if changed then (n', true)
        else
          var total := Total(area, gap, axis);
          if total <= 0.0 || !OnBoundary(axis, inLeft, edge) then (n', false)
          else
            var adjustment := if inLeft then delta / total else -delta / total;
            (n'.(ratio := ClampRatio(ratio + adjustment)), true)
  }
}
