/** Axis-aligned placements (transformation_util.cpp) and boxes (box_t_util.cpp). */
module Transform {

  datatype Point = Point(x: int, y: int)

  /** One of the eight axis-aligned orientations: flip axes, then swap them.  The three bits are the
      orientation code: R0 = 0, MY = 1, MX = 2, R180 = 3, MXR90 = 4, R270 = 5, R90 = 6, MYR90 = 7. */
  datatype Orient = Orient(flipX: bool, flipY: bool, swap: bool) {

    function Apply(p: Point): Point {
      var x := if flipX then -p.x else p.x;
      var y := if flipY then -p.y else p.y;
      if swap then Point(y, x) else Point(x, y)
    }

    function Inverse(): Orient {
      if swap then Orient(flipY, flipX, swap) else this
    }

    /** This orientation first, `rhs` second. */
    function Then(rhs: Orient): Orient {
      if swap then Orient(flipX != rhs.flipY, flipY != rhs.flipX, swap != rhs.swap)
      else Orient(flipX != rhs.flipX, flipY != rhs.flipY, rhs.swap)
    }
  }

  const R0 := Orient(false, false, false)
  const R90 := Orient(false, true, true)
  const R180 := Orient(true, true, false)
  const R270 := Orient(true, false, true)
  const MX := Orient(false, true, false)
  const MY := Orient(true, false, false)
  const MXR90 := Orient(false, false, true)
  const MYR90 := Orient(true, true, true)

  /** The polygon library's transformation: shift by `-shift`, then apply the orientation. */
  datatype Xform = Xform(shift: Point, orient: Orient) {

    function Apply(p: Point): Point {
      orient.Apply(Point(p.x - shift.x, p.y - shift.y))
    }
  }

  function Negate(p: Point): Point {
    Point(-p.x, -p.y)
  }

  function MakeXform(dx: int, dy: int, orient: Orient): Xform {
    Xform(Negate(orient.Inverse().Apply(Point(dx, dy))), orient)
  }

  /** Where the origin goes. */
  function Location(xform: Xform): Point {
    xform.Apply(Point(0, 0))
  }

  function SetLocation(xform: Xform, x: int, y: int): Xform {
    Xform(Negate(xform.orient.Inverse().Apply(Point(x, y))), xform.orient)
  }

  function SetOrient(xform: Xform, orient: Orient): Xform {
    var loc := Location(xform);
    SetLocation(Xform(xform.shift, orient), loc.x, loc.y)
  }

  function MoveBy(xform: Xform, dx: int, dy: int): Xform {
    var loc := Location(xform);
    SetLocation(xform, loc.x + dx, loc.y + dy)
  }

  function TransformBy(xform: Xform, rhs: Xform): Xform {
    var loc := rhs.Apply(Location(xform));
    SetLocation(Xform(xform.shift, xform.orient.Then(rhs.orient)), loc.x, loc.y)
  }

  function Invert(xform: Xform): Xform {
    Xform(Negate(xform.orient.Apply(xform.shift)), xform.orient.Inverse())
  }

  predicate FlipsXY(xform: Xform) {
    xform.orient.swap
  }

  // ---------------------------------------------------------------------------------------------
  // Placements form a group that acts on points

  lemma MakeXformPlaces(dx: int, dy: int, orient: Orient, p: Point)
    ensures Location(MakeXform(dx, dy, orient)) == Point(dx, dy)
    ensures var q := orient.Apply(p); MakeXform(dx, dy, orient).Apply(p) == Point(q.x + dx, q.y + dy)
  {
  }

  /** transform_by is composition, `xform` first. */
  lemma TransformByComposes(xform: Xform, rhs: Xform, p: Point)
    ensures TransformBy(xform, rhs).Apply(p) == rhs.Apply(xform.Apply(p))
    ensures FlipsXY(TransformBy(xform, rhs)) == (FlipsXY(xform) != FlipsXY(rhs))
  {
  }

  lemma InvertUndoes(xform: Xform, p: Point)
    ensures Invert(xform).Apply(xform.Apply(p)) == p
    ensures xform.Apply(Invert(xform).Apply(p)) == p
    ensures FlipsXY(Invert(xform)) == FlipsXY(xform)
  {
  }

  // ---------------------------------------------------------------------------------------------
  // Boxes

  datatype Box = Box(xl: int, yl: int, xh: int, yh: int) {

    predicate Valid() {
      xl <= xh && yl <= yh
    }

    function Expand(dx: int, dy: int): Box {
      if Valid() then Box(xl - dx, yl - dy, xh + dx, yh + dy) else this
    }

    /** A valid box goes to the box of its transformed corners. */
    function Transformed(xform: Xform): Box {
      if !Valid() then this
      else
        var a, b := xform.Apply(Point(xl, yl)), xform.Apply(Point(xh, yh));
        Box(Min(a.x, b.x), Min(a.y, b.y), Max(a.x, b.x), Max(a.y, b.y))
    }

    /** Closed contact, as the R-tree tests it. */
    predicate Meets(b: Box) {
      xl <= b.xh && b.xl <= xh && yl <= b.yh && b.yl <= yh
    }

    /** The intersection has positive area. */
    predicate Overlaps(b: Box) {
      Max(xl, b.xl) < Min(xh, b.xh) && Max(yl, b.yl) < Min(yh, b.yh)
    }

    predicate Contains(b: Box) {
      xl <= b.xl && b.xh <= xh && yl <= b.yl && b.yh <= yh
    }
  }

  function Min(a: int, b: int): int {
    if a <= b then a else b
  }

  function Max(a: int, b: int): int {
    if a >= b then a else b
  }

  /** Transforming a box twice is transforming it by the composition. */
  lemma TransformedTwice(b: Box, f: Xform, g: Xform)
    ensures b.Transformed(f).Transformed(g) == b.Transformed(TransformBy(f, g))
  {
    if b.Valid() {
      TransformByComposes(f, g, Point(b.xl, b.yl));
      TransformByComposes(f, g, Point(b.xh, b.yh));
      var lo, hi := f.Apply(Point(b.xl, b.yl)), f.Apply(Point(b.xh, b.yh));
      CornerOrder(lo, hi, g);
    }
  }

  /** Only the box of two corners matters, not which corner is which. */
  lemma CornerOrder(p: Point, q: Point, g: Xform)
    ensures Spanned(g.Apply(p), g.Apply(q))
         == Spanned(g.Apply(Point(Min(p.x, q.x), Min(p.y, q.y))), g.Apply(Point(Max(p.x, q.x), Max(p.y, q.y))))
  {
    if g.orient.swap {
    } else {
    }
  }

  /** The box of two opposite corners. */
  function Spanned(p: Point, q: Point): Box {
    Box(Min(p.x, q.x), Min(p.y, q.y), Max(p.x, q.x), Max(p.y, q.y))
  }

  lemma ContainsTransforms(a: Box, b: Box, f: Xform)
    requires a.Contains(b) && b.Valid()
    ensures a.Transformed(f).Contains(b.Transformed(f))
  {
  }

  /** A placed box, side by side: each axis shifted and perhaps flipped, then perhaps swapped. */
  function Sides(b: Box, f: Xform): Box {
    var x := if f.orient.flipX then (f.shift.x - b.xh, f.shift.x - b.xl) else (b.xl - f.shift.x, b.xh - f.shift.x);
    var y := if f.orient.flipY then (f.shift.y - b.yh, f.shift.y - b.yl) else (b.yl - f.shift.y, b.yh - f.shift.y);
    if f.orient.swap then Box(y.0, x.0, y.1, x.1) else Box(x.0, y.0, x.1, y.1)
  }

  lemma SidesAreTransformed(b: Box, f: Xform)
    requires b.Valid()
    ensures b.Transformed(f) == Sides(b, f)
  {
  }

  lemma SidesOverlap(a: Box, b: Box, f: Xform)
    ensures Sides(a, f).Overlaps(Sides(b, f)) <==> a.Overlaps(b)
  {
  }

  lemma OverlapTransforms(a: Box, b: Box, f: Xform)
    requires a.Valid() && b.Valid()
    ensures a.Transformed(f).Overlaps(b.Transformed(f)) <==> a.Overlaps(b)
  {
    SidesAreTransformed(a, f);
    SidesAreTransformed(b, f);
    SidesOverlap(a, b, f);
  }

  lemma InvertTransforms(b: Box, f: Xform)
    requires b.Valid()
    ensures b.Transformed(Invert(f)).Valid()
    ensures b.Transformed(Invert(f)).Transformed(f) == b
  {
  }

  lemma ExpandTransforms(b: Box, dx: int, dy: int, f: Xform)
    requires b.Valid() && dx >= 0 && dy >= 0
    ensures b.Expand(dx, dy).Transformed(f)
         == if FlipsXY(f) then b.Transformed(f).Expand(dy, dx) else b.Transformed(f).Expand(dx, dy)
  {
  }

  /** Margins as seen from the other side of a placement. */
  function SwapIf(swap: bool, dx: int, dy: int): (int, int) {
    if swap then (dy, dx) else (dx, dy)
  }

  /** Pulling the query box back through the placement is the same as pushing the shape forward,
      with the margins swapped when the placement swaps the axes. */
  lemma OverlapPullsBack(b: Box, r: Box, f: Xform, dx: int, dy: int)
    requires r.Valid() && b.Valid() && dx >= 0 && dy >= 0
    ensures r.Transformed(Invert(f)).Valid()
    ensures var m := SwapIf(FlipsXY(f), dx, dy);
      b.Transformed(f).Overlaps(r.Expand(dx, dy)) <==> b.Overlaps(r.Transformed(Invert(f)).Expand(m.0, m.1))
  {
    var m := SwapIf(FlipsXY(f), dx, dy);
    var back := r.Transformed(Invert(f));
    InvertTransforms(r, f);
    ExpandTransforms(back, m.0, m.1, f);
    OverlapTransforms(b, back.Expand(m.0, m.1), f);
  }
}
