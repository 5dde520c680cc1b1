/** Boxes and rectangles on the canvas: real pixels as the browser measures them, and the whole
    pixels pictures are cut in; and the elements a layout sets on it. */
module Geometry {
  import opened Numeric

  datatype Element = Headline | Subhead | Cta | Logo | Brandline

  datatype Box = Box(l: real, t: real, r: real, b: real)
  datatype Rect = Rect(l: int, t: int, r: int, b: int)

  function AsBox(r: Rect): Box {
    Box(r.l as real, r.t as real, r.r as real, r.b as real)
  }

  /** The box with `m` more on every side. */
  function Grown(b: Box, m: real): Box {
    Box(b.l - m, b.t - m, b.r + m, b.b + m)
  }

  /** Do the two share any area? */
  predicate Hits(a: Box, b: Box) {
    a.l < b.r && b.l < a.r && a.t < b.b && b.t < a.b
  }

  predicate Within(inner: Box, outer: Box) {
    outer.l <= inner.l && outer.t <= inner.t && inner.r <= outer.r && inner.b <= outer.b
  }

  function Area(b: Box): real {
    Max(0.0, b.r - b.l) * Max(0.0, b.b - b.t)
  }
}
