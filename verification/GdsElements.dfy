/** GDSII placements, elements and structure bodies (gdsii/write_util.cpp, gdsii/read_util.cpp, the
    loop of gdsii/read.cpp). */
module GdsElements {
  import opened Counts
  import opened Decimal
  import opened GdsBytes
  import opened GdsReal
  import opened GdsRecords
  import opened Transform

  const ONE := Finite(false, TWO52, 1)

  // ---------------------------------------------------------------------------------------------
  // Placements

  /** get_angle_flag: rotation in degrees and the mirror flag. */
  function AngleFlag(orient: Orient): (r: (nat, nat))
    ensures r.0 == 0 || r.0 == 90 || r.0 == 180 || r.0 == 270
    ensures r.1 == 0 || r.1 == 0x8000
  {
    if orient == R0 then (0, 0x0000)
    else if orient == R90 then (90, 0x0000)
    else if orient == R180 then (180, 0x0000)
    else if orient == R270 then (270, 0x0000)
    else if orient == MX then (0, 0x8000)
    else if orient == MXR90 then (90, 0x8000)
    else if orient == MY then (180, 0x8000)
    else (270, 0x8000)
  }

  /** Coordinates in range, and a magnification that double_to_gds accepts. */
  predicate Placeable(xform: Xform, mag: Double) {
    IsPoint32(Location(xform)) && InRange(mag)
  }

  function MagBytes(mag: Double): seq<byte>
    requires InRange(mag)
  {
    if mag == ONE then [] else Record(MAG, 8, [DoubleToGds(mag)])
  }

  function AngleBytes(angle: nat): seq<byte>
    requires angle == 0 || angle == 90 || angle == 180 || angle == 270
  {
    if angle == 0 then [] else Record(ANGLE, 8, [DoubleToGds(AngleDouble(angle))])
  }

  function PlacementBytes(flag: nat, angle: nat, mag: Double, loc: Point): seq<byte>
    requires IsPoint32(loc) && InRange(mag) && (angle == 0 || angle == 90 || angle == 180 || angle == 270)
  {
    Record(STRANS, 2, [flag]) + (MagBytes(mag) + (AngleBytes(angle) + Record(XY, 4, Coords([loc]))))
  }

  function TransformBytes(xform: Xform, mag: Double): seq<byte>
    requires Placeable(xform, mag)
  {
    var (angle, flag) := AngleFlag(xform.orient);
    PlacementBytes(flag, angle, mag, Location(xform))
  }

  /** write_transform of a single placement. */
  method WriteTransform(out: OStream, xform: Xform, mag: Double)
    requires Placeable(xform, mag)
    modifies out
    ensures out.bytes == old(out.bytes) + TransformBytes(xform, mag)
  {
    var (angle, flag) := AngleFlag(xform.orient);
    var loc := Coords([Location(xform)]);
    WriteRecord(out, STRANS, 2, [flag]);
    WriteMag(out, mag);
    WriteAngle(out, angle);
    WriteRecord(out, XY, 4, loc);
    Concat4(old(out.bytes), Record(STRANS, 2, [flag]), MagBytes(mag), AngleBytes(angle), Record(XY, 4, loc));
  }

  method WriteMag(out: OStream, mag: Double)
    requires InRange(mag)
    modifies out
    ensures out.bytes == old(out.bytes) + MagBytes(mag)
  {
    if mag != ONE {
      WriteRecord(out, MAG, 8, [DoubleToGds(mag)]);
    }
  }

  method WriteAngle(out: OStream, angle: nat)
    requires angle == 0 || angle == 90 || angle == 180 || angle == 270
    modifies out
    ensures out.bytes == old(out.bytes) + AngleBytes(angle)
  {
    if angle != 0 {
      WriteRecord(out, ANGLE, 8, [DoubleToGds(AngleDouble(angle))]);
    }
  }

  lemma Concat4(s: seq<byte>, a: seq<byte>, b: seq<byte>, c: seq<byte>, d: seq<byte>)
    ensures s + a + b + c + d == s + (a + (b + (c + d)))
  {
    Regroup(s + a, b, c, d);
    Regroup(s, a, b, c + d);
  }

  const DYADIC_ONE := Dyadic(false, 1, 0)
  const DYADIC_ZERO := Dyadic(false, 0, 0)

  /** The optional records between STRANS and XY: an angle alone, or a magnification and then
      perhaps an angle. */
  function DecMagAngle(s: seq<byte>): (r: Read<(Dyadic, Dyadic)>)
    ensures r.Some? ==> |r.value.1| <= |s|
  {
    var ((rec, _), _) :- DecHeader(s);
    if rec == MAG then
      var (mag, s1) :- DecReal(MAG, s);
      var ((rec1, _), _) :- DecHeader(s1);
      if rec1 == ANGLE then
        var (ang, s2) :- DecReal(ANGLE, s1);
        Some(((mag, ang), s2))
      else Some(((mag, DYADIC_ZERO), s1))
    else if rec == ANGLE then
      var (ang, s1) :- DecReal(ANGLE, s);
      Some(((DYADIC_ONE, ang), s1))
    else Some(((DYADIC_ONE, DYADIC_ZERO), s))
  }

  /** Bit 15 of the STRANS flags. */
  predicate MirrorBit(flag: nat) {
    flag / 0x8000 % 2 == 1
  }

  function Mirrored(mirror: bool): Xform {
    if mirror then SetOrient(MakeXform(0, 0, R0), MX) else MakeXform(0, 0, R0)
  }

  /** The rotations the reader knows. */
  function Rotation(angle: int): Option<Orient> {
    if angle == 90 then Some(R90) else if angle == 180 then Some(R180) else if angle == 270 then Some(R270) else None
  }

  function Rotated(xform: Xform, angle: int): Option<Xform> {
    if angle == 0 then Some(xform)
    else
      var orient :- Rotation(angle);
      Some(TransformBy(xform, MakeXform(0, 0, orient)))
  }

  /** Mirror first, then rotate; other angles are refused. */
  function Oriented(flag: nat, angle: int): Option<Xform> {
    Rotated(Mirrored(MirrorBit(flag)), angle)
  }

  function DecTransform(s: seq<byte>): (r: Read<(Xform, Dyadic)>)
    ensures r.Some? ==> |r.value.1| <= |s|
  {
    var (flag, s1) :- DecValue(STRANS, 2, s);
    var ((mag, ang), s2) :- DecMagAngle(s1);
    var xform :- Oriented(flag, Truncate(ang));
    var (_, s3) :- DecCheck(XY, 4, 2, s2);
    var (p, s4) :- DecPoint(s3);
    Some(((MoveBy(xform, p.x, p.y), mag), s4))
  }

  method ReadMagAngle(inp: IStream) returns (r: Result<(Dyadic, Dyadic)>)
    modifies inp
    ensures Matches(r, inp.rest, DecMagAngle(old(inp.rest)))
  {
    var mag, ang := DYADIC_ONE, DYADIC_ZERO;
    var h :- PeekHeader(inp);
    if h.0 == MAG {
      mag :- ReadReal(inp, MAG);
      h :- PeekHeader(inp);
      if h.0 == ANGLE {
        ang :- ReadReal(inp, ANGLE);
      }
    } else if h.0 == ANGLE {
      ang :- ReadReal(inp, ANGLE);
    }
    return Ok((mag, ang));
  }

  /** read_transform_info and read_transform_mag. */
  method ReadTransform(inp: IStream) returns (r: Result<(Xform, Dyadic)>)
    modifies inp
    ensures Matches(r, inp.rest, DecTransform(old(inp.rest)))
  {
    var flag :- ReadValue(inp, STRANS, 2);
    var magAng :- ReadMagAngle(inp);
    var xform := Oriented(flag, Truncate(magAng.1));
    if xform.None? {
      return Err;
    }
    var _ :- CheckHeader(inp, XY, 4, 2);
    var p :- ReadPoint(inp);
    return Ok((MoveBy(xform.value, p.x, p.y), magAng.0));
  }

  // ---------------------------------------------------------------------------------------------
  // Elements

  /** What is written; a label carries its height as a magnification. */
  datatype Element =
    | BoxElement(layer: nat, purpose: nat, box: Box)
    | PolyElement(layer: nat, purpose: nat, pts: seq<Point>)
    | LabelElement(layer: nat, purpose: nat, text: seq<byte>, xform: Xform, mag: Double)
    | InstElement(cell: seq<byte>, name: seq<byte>, xform: Xform)

  /** What is read. */
  datatype Shape =
    | PolyShape(layer: nat, purpose: nat, pts: seq<Point>)
    | LabelShape(layer: nat, purpose: nat, text: seq<byte>, xform: Xform, mag: Dyadic)
    | InstShape(cell: seq<byte>, name: seq<byte>, xform: Xform)

  /** The size assertion of `write`, for a name. */
  predicate FitsRecord(name: seq<byte>) {
    |name| + 4 <= 65535
  }

  /** The one length that passes the assertion and then makes the size field wrap to 0: the record has an
      odd size of 65535 and is rounded up. */
  const WRAPPING_LENGTH := 65531

  /** What the types and the size assertions of the writers demand. */
  predicate Writable(e: Element) {
    match e
    case BoxElement(layer, purpose, b) => layer < 0x1_0000 && purpose < 0x1_0000 && Points32(Corners(b))
    case PolyElement(layer, purpose, pts) =>
      layer < 0x1_0000 && purpose < 0x1_0000 && Points32(pts) && 0 < |pts| && 8 * (|pts| + 1) + 4 <= 65535
    case LabelElement(layer, purpose, text, xform, mag) =>
      layer < 0x1_0000 && purpose < 0x1_0000 && FitsRecord(text) && Placeable(xform, mag)
    case InstElement(cell, name, xform) => FitsRecord(cell) && FitsRecord(name) && Placeable(xform, ONE)
  }

  function Corners(b: Box): seq<Point> {
    [Point(b.xl, b.yl), Point(b.xh, b.yl), Point(b.xh, b.yh), Point(b.xl, b.yh), Point(b.xl, b.yl)]
  }

  function LayerBytes(layer: nat, rec: nat, purpose: nat): seq<byte> {
    Record(LAYER, 2, [layer]) + Record(rec, 2, [purpose])
  }

  const EndBytes := Record(ENDEL, 2, [])

  function PolyBytes(layer: nat, rec: nat, purpose: nat, pts: seq<Point>): seq<byte>
    requires Points32(pts)
  {
    LayerBytes(layer, rec, purpose) + (Record(XY, 4, Coords(pts)) + EndBytes)
  }

  function ElementBytes(e: Element): seq<byte>
    requires Writable(e)
  {
    match e
    case BoxElement(layer, purpose, b) => Record(BOX, 2, []) + PolyBytes(layer, BOXTYPE, purpose, Corners(b))
    case PolyElement(layer, purpose, pts) =>
      ClosedBytes(pts, 4);
      Record(BOUNDARY, 2, []) + PolyBytes(layer, DATATYPE, purpose, Closed(pts))
    case LabelElement(layer, purpose, text, xform, mag) =>
      Record(TEXT, 2, []) + (LayerBytes(layer, TEXTTYPE, purpose) + (Record(PRESENTATION, 2, [TEXT_PRESENTATION])
        + (TransformBytes(xform, mag) + (Record(STRING, 1, text) + EndBytes))))
    case InstElement(cell, name, xform) =>
      Record(SREF, 2, []) + (Record(SNAME, 1, cell) + (TransformBytes(xform, ONE)
        + (Record(PROPATTR, 2, [PROP_INST_NAME]) + (Record(PROPVALUE, 1, name) + EndBytes))))
  }

  lemma Concat6(s: seq<byte>, a: seq<byte>, b: seq<byte>, c: seq<byte>, d: seq<byte>, e: seq<byte>, f: seq<byte>)
    ensures s + a + b + c + d + e + f == s + (a + (b + (c + (d + (e + f)))))
  {
    Concat4(s + a + b, c, d, e, f);
    Regroup(s, a, b, c + (d + (e + f)));
  }

  method WriteLayer(out: OStream, layer: nat, rec: nat, purpose: nat)
    modifies out
    ensures out.bytes == old(out.bytes) + LayerBytes(layer, rec, purpose)
  {
    WriteRecord(out, LAYER, 2, [layer]);
    WriteRecord(out, rec, 2, [purpose]);
    Concat2(old(out.bytes), Record(LAYER, 2, [layer]), Record(rec, 2, [purpose]));
  }

  lemma Concat2(s: seq<byte>, a: seq<byte>, b: seq<byte>)
    ensures s + a + b == s + (a + b)
  {
  }

  method WriteBox(out: OStream, layer: nat, purpose: nat, b: Box)
    requires Writable(BoxElement(layer, purpose, b))
    modifies out
    ensures out.bytes == old(out.bytes) + ElementBytes(BoxElement(layer, purpose, b))
  {
    WriteRecord(out, BOX, 2, []);
    WriteLayer(out, layer, BOXTYPE, purpose);
    WriteRecord(out, XY, 4, Coords(Corners(b)));
    WriteRecord(out, ENDEL, 2, []);
    Concat4(old(out.bytes), Record(BOX, 2, []), LayerBytes(layer, BOXTYPE, purpose), Record(XY, 4, Coords(Corners(b))), EndBytes);
  }

  method WritePolygon(out: OStream, layer: nat, purpose: nat, pts: seq<Point>)
    requires Writable(PolyElement(layer, purpose, pts))
    modifies out
    ensures out.bytes == old(out.bytes) + ElementBytes(PolyElement(layer, purpose, pts))
  {
    WriteRecord(out, BOUNDARY, 2, []);
    WriteLayer(out, layer, DATATYPE, purpose);
    WritePoints(out, pts);
    WriteRecord(out, ENDEL, 2, []);
    Concat4(old(out.bytes), Record(BOUNDARY, 2, []), LayerBytes(layer, DATATYPE, purpose), Record(XY, 4, Coords(Closed(pts))), EndBytes);
  }

  method WriteText(out: OStream, layer: nat, purpose: nat, text: seq<byte>, xform: Xform, mag: Double)
    requires Writable(LabelElement(layer, purpose, text, xform, mag))
    modifies out
    ensures out.bytes == old(out.bytes) + ElementBytes(LabelElement(layer, purpose, text, xform, mag))
  {
    WriteRecord(out, TEXT, 2, []);
    WriteLayer(out, layer, TEXTTYPE, purpose);
    WriteRecord(out, PRESENTATION, 2, [TEXT_PRESENTATION]);
    WriteTransform(out, xform, mag);
    WriteRecord(out, STRING, 1, text);
    WriteRecord(out, ENDEL, 2, []);
    Concat6(old(out.bytes), Record(TEXT, 2, []), LayerBytes(layer, TEXTTYPE, purpose),
      Record(PRESENTATION, 2, [TEXT_PRESENTATION]), TransformBytes(xform, mag), Record(STRING, 1, text), EndBytes);
  }

  /** write_instance of a single placement, with write_prop_inst_name. */
  method WriteInstance(out: OStream, cell: seq<byte>, name: seq<byte>, xform: Xform)
    requires Writable(InstElement(cell, name, xform))
    modifies out
    ensures out.bytes == old(out.bytes) + ElementBytes(InstElement(cell, name, xform))
  {
    WriteRecord(out, SREF, 2, []);
    WriteRecord(out, SNAME, 1, cell);
    WriteTransform(out, xform, ONE);
    WriteRecord(out, PROPATTR, 2, [PROP_INST_NAME]);
    WriteRecord(out, PROPVALUE, 1, name);
    WriteRecord(out, ENDEL, 2, []);
    Concat6(old(out.bytes), Record(SREF, 2, []), Record(SNAME, 1, cell), TransformBytes(xform, ONE),
      Record(PROPATTR, 2, [PROP_INST_NAME]), Record(PROPVALUE, 1, name), EndBytes);
  }

  predicate AllWritable(es: seq<Element>) {
    forall k :: 0 <= k < |es| ==> Writable(es[k])
  }

  function BodyBytes(es: seq<Element>): seq<byte>
    requires AllWritable(es)
  {
    if es == [] then Record(ENDSTR, 2, [])
    else
      assert Writable(es[0]);
      ElementBytes(es[0]) + BodyBytes(es[1..])
  }

  /** The elements of a structure one after the other, then its end record. */
  method WriteBody(out: OStream, es: seq<Element>)
    requires AllWritable(es)
    modifies out
    ensures out.bytes == old(out.bytes) + BodyBytes(es)
  {
    for k := 0 to |es|
      invariant AllWritable(es[k..])
      invariant out.bytes + BodyBytes(es[k..]) == old(out.bytes) + BodyBytes(es)
    {
      BodyNext(out.bytes, es[k..]);
      assert es[k..][1..] == es[k + 1..];
      WriteElement(out, es[k]);
    }
    WriteRecord(out, ENDSTR, 2, []);
  }

  lemma BodyNext(s: seq<byte>, es: seq<Element>)
    requires AllWritable(es) && es != []
    ensures Writable(es[0]) && AllWritable(es[1..])
    ensures s + BodyBytes(es) == s + ElementBytes(es[0]) + BodyBytes(es[1..])
  {
    assert Writable(es[0]);
    forall k | 0 <= k < |es| - 1
      ensures Writable(es[1..][k])
    {
      assert es[1..][k] == es[k + 1];
    }
    Regroup(s, ElementBytes(es[0]), BodyBytes(es[1..]), []);
  }

  method WriteElement(out: OStream, e: Element)
    requires Writable(e)
    modifies out
    ensures out.bytes == old(out.bytes) + ElementBytes(e)
  {
    match e
    case BoxElement(layer, purpose, b) => WriteBox(out, layer, purpose, b);
    case PolyElement(layer, purpose, pts) => WritePolygon(out, layer, purpose, pts);
    case LabelElement(layer, purpose, text, xform, mag) => WriteText(out, layer, purpose, text, xform, mag);
    case InstElement(cell, name, xform) => WriteInstance(out, cell, name, xform);
  }

  // ---------------------------------------------------------------------------------------------
  // Reading elements

  function DecLayer(rec: nat, s: seq<byte>): (r: Read<(nat, nat)>)
    ensures r.Some? ==> |r.value.1| <= |s|
  {
    var (layer, s1) :- DecValue(LAYER, 2, s);
    var (purpose, s2) :- DecValue(rec, 2, s1);
    Some(((layer, purpose), s2))
  }

  function DecEnd(s: seq<byte>): (r: Read<nat>)
    ensures r.Some? ==> |r.value.1| <= |s|
  {
    DecCheck(ENDEL, 2, 0, s)
  }

  function DecBox(s: seq<byte>): (r: Read<Shape>)
    ensures r.Some? ==> |r.value.1| <= |s|
  {
    var ((layer, purpose), s1) :- DecLayer(BOXTYPE, s);
    var (_, s2) :- DecCheck(XY, 4, 10, s1);
    var (pts, s3) :- DecPoints(5, s2);
    var (_, s4) :- DecEnd(s3);
    Some((PolyShape(layer, purpose, pts), s4))
  }

  function DecBoundary(s: seq<byte>): (r: Read<Shape>)
    ensures r.Some? ==> |r.value.1| <= |s|
  {
    var ((layer, purpose), s1) :- DecLayer(DATATYPE, s);
    var (num, s2) :- DecCheck(XY, 4, 0, s1);
    if num / 2 >= POINT_LIMIT then None
    else
      var (pts, s3) :- DecPoints(num / 2, s2);
      var (_, s4) :- DecEnd(s3);
      Some((PolyShape(layer, purpose, pts), s4))
  }

  function DecText(s: seq<byte>): (r: Read<Shape>)
    ensures r.Some? ==> |r.value.1| <= |s|
  {
    var ((layer, purpose), s1) :- DecLayer(TEXTTYPE, s);
    var (_, s2) :- DecValue(PRESENTATION, 2, s1);
    var ((xform, mag), s3) :- DecTransform(s2);
    var (text, s4) :- DecName(STRING, s3);
    var (_, s5) :- DecEnd(s4);
    Some((LabelShape(layer, purpose, text, xform, mag), s5))
  }

  /** The name made up for an instance without a name property. */
  function AutoName(count: nat): seq<byte> {
    var digits := Numeral(count);
    [88] + seq(|digits|, i requires 0 <= i < |digits| => digits[i] as int)
  }

  /** read_inst_name: the name, and the count of made-up names. */
  function DecInstName(s: seq<byte>, count: nat): (r: Read<(seq<byte>, nat)>)
    ensures r.Some? ==> |r.value.1| <= |s|
  {
    var ((rec, _), s1) :- DecHeader(s);
    if rec == ENDEL then Some(((AutoName(count), count + 1), s1))
    else if rec == PROPATTR then
      var (code, s2) :- Take(s1, 2);
      if code != PROP_INST_NAME then None
      else
        var (name, s3) :- DecName(PROPVALUE, s2);
        var (_, s4) :- DecEnd(s3);
        Some(((name, count), s4))
    else None
  }

  function DecInstance(s: seq<byte>, count: nat, masters: set<seq<byte>>): (r: Read<(Shape, nat)>)
    ensures r.Some? ==> |r.value.1| <= |s|
  {
    var (cell, s1) :- DecName(SNAME, s);
    if cell !in masters then None
    else
      var ((xform, _), s2) :- DecTransform(s1);
      var ((name, count'), s3) :- DecInstName(s2, count);
      Some(((InstShape(cell, name, xform), count'), s3))
  }

  /** An element after its opening record. */
  function DecElement(rec: nat, s: seq<byte>, count: nat, masters: set<seq<byte>>): (r: Read<(Shape, nat)>)
    ensures r.Some? ==> |r.value.1| <= |s|
  {
    if rec == SREF then DecInstance(s, count, masters)
    else
      var (shape, s1) :-
        if rec == TEXT then DecText(s)
        else if rec == BOX then DecBox(s)
        else if rec == BOUNDARY then DecBoundary(s)
        else None;
      Some(((shape, count), s1))
  }

  function DecBody(s: seq<byte>, count: nat, masters: set<seq<byte>>): (r: Read<seq<Shape>>)
    decreases |s|
  {
    var ((rec, _), s1) :- DecHeader(s);
    if rec == ENDSTR then Some(([], s1))
    else
      var ((shape, count'), s2) :- DecElement(rec, s1, count, masters);
      var (more, s3) :- DecBody(s2, count', masters);
      Some(([shape] + more, s3))
  }

  method ReadLayer(inp: IStream, rec: nat) returns (r: Result<(nat, nat)>)
    modifies inp
    ensures Matches(r, inp.rest, DecLayer(rec, old(inp.rest)))
  {
    var layer :- ReadValue(inp, LAYER, 2);
    var purpose :- ReadValue(inp, rec, 2);
    return Ok((layer, purpose));
  }

  method ReadBox(inp: IStream) returns (r: Result<Shape>)
    modifies inp
    ensures Matches(r, inp.rest, DecBox(old(inp.rest)))
  {
    var key :- ReadLayer(inp, BOXTYPE);
    var _ :- CheckHeader(inp, XY, 4, 10);
    var pts :- ReadPoints(inp, 5);
    var _ :- CheckHeader(inp, ENDEL, 2, 0);
    return Ok(PolyShape(key.0, key.1, pts));
  }

  method ReadBoundary(inp: IStream) returns (r: Result<Shape>)
    modifies inp
    ensures Matches(r, inp.rest, DecBoundary(old(inp.rest)))
  {
    var key :- ReadLayer(inp, DATATYPE);
    var num :- CheckHeader(inp, XY, 4, 0);
    if num / 2 >= POINT_LIMIT {
      return Err;
    }
    var pts :- ReadPoints(inp, num / 2);
    var _ :- CheckHeader(inp, ENDEL, 2, 0);
    return Ok(PolyShape(key.0, key.1, pts));
  }

  method ReadText(inp: IStream) returns (r: Result<Shape>)
    modifies inp
    ensures Matches(r, inp.rest, DecText(old(inp.rest)))
  {
    var key :- ReadLayer(inp, TEXTTYPE);
    var _ :- ReadValue(inp, PRESENTATION, 2);
    var placed :- ReadTransform(inp);
    var text :- ReadName(inp, STRING);
    var _ :- CheckHeader(inp, ENDEL, 2, 0);
    return Ok(LabelShape(key.0, key.1, text, placed.0, placed.1));
  }

  method ReadInstName(inp: IStream, count: nat) returns (r: Result<(seq<byte>, nat)>)
    modifies inp
    ensures Matches(r, inp.rest, DecInstName(old(inp.rest), count))
  {
    var h :- ReadHeader(inp);
    if h.0 == ENDEL {
      return Ok((AutoName(count), count + 1));
    }
    if h.0 != PROPATTR {
      return Err;
    }
    var code :- inp.ReadBytes(2);
    if code != PROP_INST_NAME {
      return Err;
    }
    var name :- ReadName(inp, PROPVALUE);
    var _ :- CheckHeader(inp, ENDEL, 2, 0);
    return Ok((name, count));
  }

  method ReadInstance(inp: IStream, count: nat, masters: set<seq<byte>>) returns (r: Result<(Shape, nat)>)
    modifies inp
    ensures Matches(r, inp.rest, DecInstance(old(inp.rest), count, masters))
  {
    var cell :- ReadName(inp, SNAME);
    if cell !in masters {
      return Err;
    }
    var placed :- ReadTransform(inp);
    var named :- ReadInstName(inp, count);
    return Ok((InstShape(cell, named.0, placed.0), named.1));
  }

  method ReadElement(inp: IStream, rec: nat, count: nat, masters: set<seq<byte>>) returns (r: Result<(Shape, nat)>)
    modifies inp
    ensures Matches(r, inp.rest, DecElement(rec, old(inp.rest), count, masters))
  {
    if rec == SREF {
      r := ReadInstance(inp, count, masters);
      return;
    }
    var shape: Shape;
    if rec == TEXT {
      shape :- ReadText(inp);
    } else if rec == BOX {
      shape :- ReadBox(inp);
    } else if rec == BOUNDARY {
      shape :- ReadBoundary(inp);
    } else {
      return Err;
    }
    return Ok((shape, count));
  }

  /** Shapes read so far in front of what is still to be read. */
  function PrependShapes(shapes: seq<Shape>, r: Read<seq<Shape>>): Read<seq<Shape>> {
    var (more, s) :- r;
    Some((shapes + more, s))
  }

  /** The loop of read_lay_cellview. */
  method ReadBody(inp: IStream, masters: set<seq<byte>>) returns (r: Result<seq<Shape>>)
    modifies inp
    ensures Matches(r, inp.rest, DecBody(old(inp.rest), 0, masters))
  {
    var shapes, count: nat := [], 0;
    ghost var s := inp.rest;
    PrependNoShapes(DecBody(s, 0, masters));
    while true
      invariant PrependShapes(shapes, DecBody(inp.rest, count, masters)) == DecBody(s, 0, masters)
      decreases |inp.rest|
    {
      ghost var before := inp.rest;
      var h :- ReadHeader(inp);
      if h.0 == ENDSTR {
        assert shapes + [] == shapes;
        return Ok(shapes);
      }
      var next :- ReadElement(inp, h.0, count, masters);
      PrependShape(shapes, next.0, DecBody(inp.rest, next.1, masters));
      shapes := shapes + [next.0];
      count := next.1;
    }
  }

  lemma PrependNoShapes(r: Read<seq<Shape>>)
    ensures PrependShapes([], r) == r
  {
    if r.Some? {
      assert [] + r.value.0 == r.value.0;
    }
  }

  lemma PrependShape(shapes: seq<Shape>, shape: Shape, r: Read<seq<Shape>>)
    ensures PrependShapes(shapes + [shape], r) == PrependShapes(shapes, PrependShapes([shape], r))
  {
    if r.Some? {
      assert (shapes + [shape]) + r.value.0 == shapes + ([shape] + r.value.0);
    }
  }
}
