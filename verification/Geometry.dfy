/** Frames, split axes and the one rule that divides an area between two children. */
module Geometry {

  type WindowId = nat

  datatype Rect = Rect(x: real, y: real, width: real, height: real) {
    function Right(): real { x + width }

    function Bottom(): real { y + height }

    ghost predicate NonNegative() { width >= 0.0 && height >= 0.0 }

    ghost predicate Inside(area: Rect) {
      && area.x <= x && Right() <= area.Right()
      && area.y <= y && Bottom() <= area.Bottom()
    }

    /** At least `gap` apart on the horizontal or the vertical axis. */
    ghost predicate Apart(other: Rect, gap: real) {
      || Right() + gap <= other.x || other.Right() + gap <= x
      || Bottom() + gap <= other.y || other.Bottom() + gap <= y
    }

    ghost function Area(): real { width * height }

    /** Exchange the two axes. */
    ghost function Transposed(): Rect { Rect(y, x, height, width) }

    /** Half a turn about the centre of `area`. */
    ghost function Turned(area: Rect): Rect {
      Rect(area.x + area.Right() - Right(), area.y + area.Bottom() - Bottom(), width, height)
    }
  }

  datatype Axis = Vertical | Horizontal {
    function Other(): Axis { if Vertical? then Horizontal else Vertical }
  }

  datatype Direction = North | South | East | West

  datatype Placement = Placement(window: WindowId, frame: Rect)

  function AtLeastZero(v: real): real { if v < 0.0 then 0.0 else v }

  /** Every ratio a split uses lies in 0.1..=0.9. */
  function ClampRatio(r: real): (c: real)
    ensures 0.1 <= c <= 0.9
    ensures 0.1 <= r <= 0.9 ==> c == r
    ensures c == r || (r < 0.1 && c == 0.1) || (r > 0.9 && c == 0.9)
  {
    if r < 0.1 then 0.1 else if r > 0.9 then 0.9 else r
  }

  /** What a split has to share out along its axis: the side less one gap. May be negative. */
  function Total(area: Rect, gap: real, axis: Axis): real {
    if axis == Vertical then area.width - gap else area.height - gap
  }

  /** `ratio` of a length, for a ratio in the clamped range. */
  function Times(total: real, ratio: real): (p: real)
    requires 0.1 <= ratio <= 0.9
    ensures p == total * ratio
    ensures total >= 0.0 ==> 0.1 * total <= p <= 0.9 * total
  {
    assert total >= 0.0 ==> total * (ratio - 0.1) >= 0.0 && total * (0.9 - ratio) >= 0.0;
    total * ratio
  }

  /** The length of the first child along the split axis. */
  function FirstShare(total: real, ratio: real): (first: real)
    ensures total >= 0.0 ==> 0.1 * total <= first <= 0.9 * total && first == Times(total, ClampRatio(ratio))
    ensures total <= 0.0 ==> first == 0.0
  {
    if total < 0.0 then 0.0 else AtLeastZero(Times(total, ClampRatio(ratio)))
  }

  function Split(area: Rect, gap: real, axis: Axis, ratio: real): (Rect, Rect) {
    var total := Total(area, gap, axis);
    var first := FirstShare(total, ratio);
    var second := AtLeastZero(AtLeastZero(total) - first);
    if axis == Vertical then
      (Rect(area.x, area.y, first, area.height),
       Rect(area.x + first + gap, area.y, second, area.height))
    else
      (Rect(area.x, area.y, area.width, first),
       Rect(area.x, area.y + first + gap, area.width, second))
  }

  /** When the side holds a gap, the two parts and the gap make up the side exactly. */
  lemma SplitFits(area: Rect, gap: real, axis: Axis, ratio: real)
    requires Total(area, gap, axis) >= 0.0
    ensures var total := Total(area, gap, axis);
            var first := FirstShare(total, ratio);
            && 0.1 * total <= first <= 0.9 * total
            && Split(area, gap, axis, ratio) ==
               if axis == Vertical then
                 (area.(width := first), Rect(area.x + first + gap, area.y, total - first, area.height))
               else
                 (area.(height := first), Rect(area.x, area.y + first + gap, area.width, total - first))
  {
  }

  /** When it does not, both parts are empty and the second starts a gap away, outside the area. */
  lemma SplitOverflows(area: Rect, gap: real, axis: Axis, ratio: real)
    requires Total(area, gap, axis) < 0.0
    ensures var (a, b) := Split(area, gap, axis, ratio);
            if axis == Vertical then
              a == area.(width := 0.0) && b == area.(x := area.x + gap, width := 0.0) && b.x > area.Right()
            else
              a == area.(height := 0.0) && b == area.(y := area.y + gap, height := 0.0) && b.y > area.Bottom()
  {
  }
}
