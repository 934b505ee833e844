/**
 * The pointer monitor around the highlight tip: on every pointer move it tests the
 * pointer against the container's box enlarged by the padding and reports a move away
 * when the pointer is outside. Coordinates are reals; the box comes from the layout.
 */
module MouseMonitor {
  import opened Wrappers

  /** The container's bounding box. */
  datatype Rect = Rect(left: real, top: real, width: real, height: real)

  /** Strictly inside the open interval `(lo - pad, lo + size + pad)`. */
  predicate InBounds(p: real, lo: real, size: real, pad: real) {
    lo - pad < p && p < lo + size + pad
  }

  /** The pointer is near when it is strictly inside the padded box on both axes. */
  predicate IsNear(r: Rect, paddingX: real, paddingY: real, x: real, y: real) {
    InBounds(x, r.left, r.width, paddingX) && InBounds(y, r.top, r.height, paddingY)
  }

  /**
   * The reference: the distance from the pointer to the box's centre is less than half the
   * box plus the padding, on both axes.
   */
  predicate WithinReach(r: Rect, paddingX: real, paddingY: real, x: real, y: real) {
    Abs(x - (r.left + r.width / 2.0)) < r.width / 2.0 + paddingX
    && Abs(y - (r.top + r.height / 2.0)) < r.height / 2.0 + paddingY
  }

  function Abs(v: real): (a: real)
    ensures a >= 0.0 && (a == v || a == -v)
  {
    if v < 0.0 then -v else v
  }

  lemma NearIsWithinReach(r: Rect, paddingX: real, paddingY: real, x: real, y: real)
    ensures IsNear(r, paddingX, paddingY, x, y) <==> WithinReach(r, paddingX, paddingY, x, y)
  {
  }

  /** The padded edges themselves count as away. */
  lemma {:induction false} EdgesAreAway(r: Rect, paddingX: real, paddingY: real, y: real)
    ensures !IsNear(r, paddingX, paddingY, r.left - paddingX, y)
    ensures !IsNear(r, paddingX, paddingY, r.left + r.width + paddingX, y)
  {
  }

  /** More padding keeps every near point near. */
  lemma {:induction false} PaddingMonotone(r: Rect, px: real, py: real, qx: real, qy: real, x: real, y: real)
    requires px <= qx && py <= qy
    ensures IsNear(r, px, py, x, y) ==> IsNear(r, qx, qy, x, y)
  {
  }

  class Monitor {
    const paddingX: real
    const paddingY: real
    /** The element the ref callback stores; none before mount or after unmount. */
    var container: Option<Rect>

    constructor(paddingX: real, paddingY: real)
      ensures this.paddingX == paddingX && this.paddingY == paddingY && container.None?
    {
      this.paddingX := paddingX;
      this.paddingY := paddingY;
      container := None;
    }

    /** The ref callback. */
    method SetContainer(node: Option<Rect>)
      modifies this
      ensures container == node
    {
      container := node;
    }

    /** A pointer move: with no container nothing happens; otherwise away exactly when not near. */
    method MouseMove(clientX: real, clientY: real) returns (movedAway: bool)
      ensures container.None? ==> !movedAway
      ensures container.Some? ==> (movedAway <==> !IsNear(container.value, paddingX, paddingY, clientX, clientY))
    {
      if container.None? {
        return false;
      }
      var r := container.value;
      var inBoundsX := clientX > r.left - paddingX && clientX < r.left + r.width + paddingX;
      var inBoundsY := clientY > r.top - paddingY && clientY < r.top + r.height + paddingY;
      var isNear := inBoundsX && inBoundsY;
      movedAway := !isNear;
    }
  }

  /** Before mount a move never counts as away; inside the box it is not away, far off it is. */
  method MountAndMove(r: Rect) returns (beforeMount: bool, inside: bool, farAway: bool)
    requires r.width >= 0.0 && r.height >= 0.0
    ensures !beforeMount && !inside && farAway
  {
    var m := new Monitor(10.0, 20.0);
    beforeMount := m.MouseMove(r.left - 100.0, r.top);
    m.SetContainer(Some(r));
    inside := m.MouseMove(r.left + r.width / 2.0, r.top + r.height / 2.0);
    farAway := m.MouseMove(r.left - 10.0, r.top);
  }
}
