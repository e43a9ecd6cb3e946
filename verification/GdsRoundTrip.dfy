/** Reading back what was written: every reader returns the values its writer was given and consumes
    exactly the bytes that were written. */
module GdsRoundTrip {
  import opened Counts
  import opened GdsBytes
  import opened GdsReal
  import opened GdsRecords
  import opened GdsElements
  import opened Transform

  // ---------------------------------------------------------------------------------------------
  // Records

  /** The data size that the header of a record gives back. */
  function SizeBack(size: nat): nat {
    if size == WRAPPING_LENGTH then Counts.TWO64 - 4 else size + size % 2
  }

  lemma HeaderReads(rec: nat, size: nat, rest: seq<byte>)
    requires rec < 0x1_0000 && size + 4 <= 65535
    ensures DecHeader(Opening(rec, size) + rest) == Some(((rec, SizeBack(size)), rest))
  {
    ByteWidths();
    var n := SizeField(size);
    assert Opening(rec, size) + rest == Encode(n, 2) + (Encode(rec, 2) + rest);
    TakeEncoded(n, 2, Encode(rec, 2) + rest);
    TakeEncoded(rec, 2, rest);
  }

  /** The header of a framed record and what follows it. */
  lemma FrameReads(rec: nat, data: seq<byte>, rest: seq<byte>)
    requires rec < 0x1_0000 && |data| + 4 <= 65535
    ensures DecHeader(Framed(rec, data) + rest) == Some(((rec, SizeBack(|data|)), data + (Padding(|data|) + rest)))
  {
    Regroup(Opening(rec, |data|), data, Padding(|data|), rest);
    HeaderReads(rec, |data|, data + (Padding(|data|) + rest));
  }

  lemma OpenReads(rec: nat, data: seq<byte>, rest: seq<byte>)
    requires rec < 0x1_0000 && |data| + 4 < 65535 && |data| % 2 == 0
    ensures DecHeader(Framed(rec, data) + rest) == Some(((rec, |data|), data + rest))
  {
    FrameReads(rec, data, rest);
    assert Padding(|data|) + rest == rest;
  }

  /** An even-sized record passes the header check of its own type, unit and count. */
  lemma CheckReads(rec: nat, unit: nat, num: nat, vals: seq<nat>, rest: seq<byte>)
    requires rec < 0x1_0000 && unit > 0 && unit % 2 == 0 && |EncodeAll(vals, unit)| + 4 < 65535
    requires num == 0 || num == |vals|
    ensures DecCheck(rec, unit, num, Record(rec, unit, vals) + rest) == Some((|vals|, EncodeAll(vals, unit) + rest))
  {
    EvenProduct(unit, |vals|);
    OpenReads(rec, EncodeAll(vals, unit), rest);
    QuotientOfProduct(unit, |vals|);
  }

  lemma EvenProduct(unit: nat, n: nat)
    requires unit % 2 == 0
    ensures unit * n % 2 == 0
  {
    assert unit * n == 2 * (unit / 2 * n);
  }

  lemma QuotientOfProduct(unit: nat, n: nat)
    requires unit > 0
    ensures unit * n / unit == n && unit * n % unit == 0
  {
    var q, r := unit * n / unit, unit * n % unit;
    assert unit * (n - q) == r;
    assert n - q >= 1 ==> unit * (n - q) >= unit;
    assert n - q <= -1 ==> unit * (n - q) + unit <= 0;
  }

  lemma ValueReads(rec: nat, unit: nat, v: nat, rest: seq<byte>)
    requires rec < 0x1_0000 && 0 < unit <= 8 && unit % 2 == 0 && v < Pow256(unit)
    ensures DecValue(rec, unit, Record(rec, unit, [v]) + rest) == Some((v, rest))
  {
    CheckReads(rec, unit, 1, [v], rest);
    assert [v][1..] == [];
    assert EncodeAll([v], unit) == Encode(v, unit);
    TakeEncoded(v, unit, rest);
  }

  /** The name that comes back: a name of odd length keeps the padding byte. */
  function Padded(name: seq<byte>): seq<byte> {
    name + Padding(|name|)
  }

  lemma {:induction false} CharsEncode(name: seq<byte>)
    ensures EncodeAll(name, 1) == name
  {
    if name != [] {
      CharsEncode(name[1..]);
      assert Encode(name[0], 1) == Encode(name[0] / 256, 0) + [name[0]];
    }
  }

  /** A name comes back with its padding byte, unless its length makes the size field wrap; so it comes
      back unchanged if and only if its length is even. */
  lemma NameReads(rec: nat, name: seq<byte>, rest: seq<byte>)
    requires rec < 0x1_0000 && FitsRecord(name)
    ensures DecName(rec, Record(rec, 1, name) + rest)
         == if |name| == WRAPPING_LENGTH then None else Some((Padded(name), rest))
    ensures DecName(rec, Record(rec, 1, name) + rest) == Some((name, rest)) <==> |name| % 2 == 0
  {
    CharsEncode(name);
    FrameReads(rec, name, rest);
    var tail := Padded(name) + rest;
    assert name + (Padding(|name|) + rest) == tail;
    assert tail[..|Padded(name)|] == Padded(name) && tail[|Padded(name)|..] == rest;
    assert Padded(name) == name <==> |name| % 2 == 0;
  }

  /** A one-byte name comes back with two bytes. */
  lemma OddName(rest: seq<byte>)
    ensures DecName(SNAME, Record(SNAME, 1, [65]) + rest) == Some(([65, 0], rest))
  {
    NameReads(SNAME, [65], rest);
    assert Padded([65]) == [65, 0];
  }

  lemma EmptyReads(rec: nat, rest: seq<byte>)
    requires rec < 0x1_0000
    ensures DecHeader(Record(rec, 2, []) + rest) == Some(((rec, 0), rest))
    ensures DecCheck(rec, 2, 0, Record(rec, 2, []) + rest) == Some((0, rest))
  {
    FrameReads(rec, [], rest);
    assert [] + ([] + rest) == rest;
    assert EncodeAll([], 2) == [];
  }

  // ---------------------------------------------------------------------------------------------
  // Points

  lemma PointReads(p: Point, rest: seq<byte>)
    requires IsPoint32(p)
    ensures DecPoint(EncodeAll([Unsigned(p.x), Unsigned(p.y)], 4) + rest) == Some((p, rest))
  {
    ByteWidths();
    var x, y := Unsigned(p.x), Unsigned(p.y);
    EncodeTwo(x, y, 4);
    Regroup([], Encode(x, 4), Encode(y, 4), rest);
    var s := Encode(x, 4) + (Encode(y, 4) + rest);
    assert EncodeAll([x, y], 4) + rest == s;
    TakeEncoded(x, 4, Encode(y, 4) + rest);
    TakeEncoded(y, 4, rest);
  }

  lemma {:induction false} PointsRead(pts: seq<Point>, rest: seq<byte>)
    requires Points32(pts)
    ensures DecPoints(|pts|, EncodeAll(Coords(pts), 4) + rest) == Some((pts, rest))
  {
    if pts == [] {
      assert EncodeAll(Coords(pts), 4) + rest == rest;
    } else {
      assert IsPoint32(pts[0]) && Points32(pts[1..]);
      var x, y := Unsigned(pts[0].x), Unsigned(pts[0].y);
      FirstPoint(pts, 4, rest);
      PointReads(pts[0], EncodeAll(Coords(pts[1..]), 4) + rest);
      PointsRead(pts[1..], rest);
      NextPoints(|pts|, pts[0], EncodeAll(Coords(pts), 4) + rest, EncodeAll(Coords(pts[1..]), 4) + rest);
      assert [pts[0]] + pts[1..] == pts;
    }
  }

  lemma FirstPoint(pts: seq<Point>, unit: nat, rest: seq<byte>)
    requires pts != [] && Points32(pts) && Points32(pts[1..]) && IsPoint32(pts[0])
    ensures EncodeAll(Coords(pts), unit) + rest
         == EncodeAll([Unsigned(pts[0].x), Unsigned(pts[0].y)], unit) + (EncodeAll(Coords(pts[1..]), unit) + rest)
  {
    var first := [Unsigned(pts[0].x), Unsigned(pts[0].y)];
    EncodeAllAppend(first, Coords(pts[1..]), unit);
    Regroup([], EncodeAll(first, unit), EncodeAll(Coords(pts[1..]), unit), rest);
  }

  lemma NextPoints(num: nat, p: Point, s: seq<byte>, s1: seq<byte>)
    requires num > 0 && DecPoint(s) == Some((p, s1))
    ensures DecPoints(num, s) == Prepend([p], DecPoints(num - 1, s1))
  {
  }

  // ---------------------------------------------------------------------------------------------
  // Placements

  lemma ComposeOrients(a: Orient, b: Orient)
    ensures TransformBy(MakeXform(0, 0, a), MakeXform(0, 0, b)) == MakeXform(0, 0, a.Then(b))
  {
    MakeXformPlaces(0, 0, a, Point(0, 0));
    MakeXformPlaces(0, 0, b, Point(0, 0));
  }

  /** The orientation an angle-and-flag pair stands for. */
  function Meant(angle: nat, flag: nat): Orient {
    (if flag == 0 then R0 else MX).Then(Turn(angle))
  }

  function Turn(angle: nat): Orient {
    match Rotation(angle)
    case Some(orient) => orient
    case None => R0
  }

  lemma MeantBack(orient: Orient)
    ensures var (angle, flag) := AngleFlag(orient);
      && Meant(angle, flag) == orient
      && (flag == 0 || flag == 0x8000)
      && (angle == 0 || angle == 90 || angle == 180 || angle == 270)
  {
  }

  lemma OrientedMeans(angle: nat, flag: nat)
    requires flag == 0 || flag == 0x8000
    requires angle == 0 || angle == 90 || angle == 180 || angle == 270
    ensures Oriented(flag, angle) == Some(MakeXform(0, 0, Meant(angle, flag)))
  {
    MirrorBits();
    TurnedMirror(flag == 0x8000, angle);
  }

  lemma TurnedMirror(mirror: bool, angle: nat)
    requires angle == 0 || angle == 90 || angle == 180 || angle == 270
    ensures Rotated(Mirrored(mirror), angle) == Some(MakeXform(0, 0, (if mirror then MX else R0).Then(Turn(angle))))
  {
    var base := if mirror then MX else R0;
    MirroredMeans(mirror);
    if angle == 0 {
      assert base.Then(R0) == base;
    } else {
      ComposeOrients(base, Turn(angle));
    }
  }

  lemma MirroredMeans(mirror: bool)
    ensures Mirrored(mirror) == MakeXform(0, 0, if mirror then MX else R0)
  {
    if mirror {
      SetOrientAtOrigin(R0, MX);
    }
  }

  lemma MirrorBits()
    ensures !MirrorBit(0) && MirrorBit(0x8000)
  {
  }

  lemma SetOrientAtOrigin(a: Orient, b: Orient)
    ensures SetOrient(MakeXform(0, 0, a), b) == MakeXform(0, 0, b)
  {
    MakeXformPlaces(0, 0, a, Point(0, 0));
  }

  /** Mirror and rotation bring back every one of the eight orientations. */
  lemma OrientedBack(orient: Orient)
    ensures var (angle, flag) := AngleFlag(orient);
      flag < 0x1_0000 && Oriented(flag, angle) == Some(MakeXform(0, 0, orient))
  {
    MeantBack(orient);
    var (angle, flag) := AngleFlag(orient);
    OrientedMeans(angle, flag);
  }

  /** Placing at the written location restores the transformation itself. */
  lemma PlacedBack(xform: Xform)
    ensures MoveBy(MakeXform(0, 0, xform.orient), Location(xform).x, Location(xform).y) == xform
  {
    MakeXformPlaces(0, 0, xform.orient, Point(0, 0));
    SetSameLocation(xform);
  }

  lemma SetSameLocation(xform: Xform)
    ensures SetLocation(xform, Location(xform).x, Location(xform).y) == xform
  {
    if xform.orient.swap {
    } else {
    }
  }

  /** The magnification that comes back. */
  function MagBack(mag: Double): Dyadic
    requires InRange(mag)
  {
    if mag == ONE then DYADIC_ONE
    else
      CodeBound(mag);
      GdsToDouble(DoubleToGds(mag))
  }

  lemma RealReads(rec: nat, d: Double, rest: seq<byte>)
    requires rec < 0x1_0000 && InRange(d)
    ensures DoubleToGds(d) < 2 * GdsReal.TWO63
    ensures DecReal(rec, Record(rec, 8, [DoubleToGds(d)]) + rest) == Some((GdsToDouble(DoubleToGds(d)), rest))
    ensures DecHeader(Record(rec, 8, [DoubleToGds(d)]) + rest).Some?
    ensures DecHeader(Record(rec, 8, [DoubleToGds(d)]) + rest).value.0.0 == rec
  {
    ByteWidths();
    CodeBound(d);
    ValueReads(rec, 8, DoubleToGds(d), rest);
    FrameReads(rec, EncodeAll([DoubleToGds(d)], 8), rest);
  }

  /** The angle that comes back, before the cast. */
  lemma AngleReads(angle: nat, rest: seq<byte>)
    requires angle == 90 || angle == 180 || angle == 270
    ensures var s := AngleBytes(angle) + rest;
      && DecHeader(s).Some? && DecHeader(s).value.0.0 == ANGLE
      && DecReal(ANGLE, s).Some? && DecReal(ANGLE, s).value.1 == rest
      && Truncate(DecReal(ANGLE, s).value.0) == angle
  {
    RealReads(ANGLE, AngleDouble(angle), rest);
    AngleRoundTrip(angle);
  }

  /** MAG and ANGLE are each present or absent; XY follows. */
  lemma MagAngleReads(mag: Double, angle: nat, rest: seq<byte>)
    requires InRange(mag) && (angle == 0 || angle == 90 || angle == 180 || angle == 270)
    requires DecHeader(rest).Some? && DecHeader(rest).value.0.0 == XY
    ensures var r := DecMagAngle(MagBytes(mag) + (AngleBytes(angle) + rest));
      r.Some? && r.value.1 == rest && r.value.0.0 == MagBack(mag) && Truncate(r.value.0.1) == angle
  {
    var tail := AngleBytes(angle) + rest;
    if angle != 0 {
      AngleReads(angle, rest);
    } else {
      assert tail == rest;
      assert Truncate(DYADIC_ZERO) == 0;
    }
    if mag != ONE {
      RealReads(MAG, mag, tail);
    } else {
      assert MagBytes(mag) + tail == tail;
    }
  }

  lemma LocationReads(p: Point, rest: seq<byte>)
    requires IsPoint32(p)
    ensures var s := Record(XY, 4, Coords([p])) + rest;
      && DecHeader(s).Some? && DecHeader(s).value.0.0 == XY
      && DecCheck(XY, 4, 2, s).Some? && DecPoint(DecCheck(XY, 4, 2, s).value.1) == Some((p, rest))
  {
    var pts := [p];
    assert pts[1..] == [];
    var vals := Coords(pts);
    assert vals == [Unsigned(p.x), Unsigned(p.y)];
    CoordsCheck(vals, 4, 2, rest);
    FrameReads(XY, EncodeAll(vals, 4), rest);
    PointReads(p, rest);
  }

  lemma PlacementReads(flag: nat, angle: nat, mag: Double, loc: Point, rest: seq<byte>)
    requires IsPoint32(loc) && InRange(mag) && (angle == 0 || angle == 90 || angle == 180 || angle == 270)
    requires flag < 0x1_0000 && Oriented(flag, angle).Some?
    ensures DecTransform(PlacementBytes(flag, angle, mag, loc) + rest)
         == Some(((MoveBy(Oriented(flag, angle).value, loc.x, loc.y), MagBack(mag)), rest))
  {
    ByteWidths();
    var s2 := Record(XY, 4, Coords([loc])) + rest;
    var s1 := MagBytes(mag) + (AngleBytes(angle) + s2);
    var s := PlacementBytes(flag, angle, mag, loc) + rest;
    Join4(Record(STRANS, 2, [flag]), MagBytes(mag), AngleBytes(angle), Record(XY, 4, Coords([loc])), rest);
    ValueReads(STRANS, 2, flag, s1);
    LocationReads(loc, rest);
    MagAngleReads(mag, angle, s2);
    TransformSteps(s, flag, s1, DecMagAngle(s1).value.0, s2, loc, rest);
  }

  /** The four steps of reading a placement. */
  lemma TransformSteps(s: seq<byte>, flag: nat, s1: seq<byte>, magAng: (Dyadic, Dyadic), s2: seq<byte>, p: Point, rest: seq<byte>)
    requires DecValue(STRANS, 2, s) == Some((flag, s1)) && DecMagAngle(s1) == Some((magAng, s2))
    requires Oriented(flag, Truncate(magAng.1)).Some?
    requires DecCheck(XY, 4, 2, s2).Some? && DecPoint(DecCheck(XY, 4, 2, s2).value.1) == Some((p, rest))
    ensures DecTransform(s) == Some(((MoveBy(Oriented(flag, Truncate(magAng.1)).value, p.x, p.y), magAng.0), rest))
  {
  }

  /** Every single placement comes back: orientation, location, magnification, all bytes used. */
  lemma TransformReads(xform: Xform, mag: Double, rest: seq<byte>)
    requires Placeable(xform, mag)
    ensures DecTransform(TransformBytes(xform, mag) + rest) == Some(((xform, MagBack(mag)), rest))
  {
    var (angle, flag) := AngleFlag(xform.orient);
    OrientedBack(xform.orient);
    PlacementReads(flag, angle, mag, Location(xform), rest);
    PlacedBack(xform);
  }

  lemma Join4(a: seq<byte>, b: seq<byte>, c: seq<byte>, d: seq<byte>, rest: seq<byte>)
    ensures a + (b + (c + d)) + rest == a + (b + (c + (d + rest)))
  {
    Regroup([], b, c + d, rest);
    Regroup([], c, d, rest);
    assert a + (b + (c + d)) + rest == a + ((b + (c + d)) + rest);
  }

  /** Every mirror-and-rotate pair names one orientation: distinct orientations are written differently. */
  lemma AngleFlagInjective(a: Orient, b: Orient)
    requires AngleFlag(a) == AngleFlag(b)
    ensures a == b
  {
  }

  // ---------------------------------------------------------------------------------------------
  // Elements

  /** What the reader makes of an element: boxes and polygons come back as closed point lists. */
  function Seen(e: Element): Shape
    requires Writable(e)
  {
    match e
    case BoxElement(layer, purpose, b) => PolyShape(layer, purpose, Corners(b))
    case PolyElement(layer, purpose, pts) => PolyShape(layer, purpose, Closed(pts))
    case LabelElement(layer, purpose, text, xform, mag) => LabelShape(layer, purpose, Padded(text), xform, MagBack(mag))
    case InstElement(cell, name, xform) => InstShape(Padded(cell), Padded(name), xform)
  }

  /** No name in the element makes its size field wrap. */
  predicate NoWrap(e: Element) {
    match e
    case LabelElement(_, _, text, _, _) => |text| != WRAPPING_LENGTH
    case InstElement(cell, name, _) => |cell| != WRAPPING_LENGTH && |name| != WRAPPING_LENGTH
    case _ => true
  }

  /** No size field wraps, and an instance's master is known under the name that is read back. */
  predicate ReadsBack(e: Element, masters: set<seq<byte>>) {
    NoWrap(e) && (e.InstElement? ==> Padded(e.cell) in masters)
  }

  function OpenRec(e: Element): nat {
    match e
    case BoxElement(_, _, _) => BOX
    case PolyElement(_, _, _) => BOUNDARY
    case LabelElement(_, _, _, _, _) => TEXT
    case InstElement(_, _, _) => SREF
  }

  lemma LayerReads(layer: nat, rec: nat, purpose: nat, rest: seq<byte>)
    requires layer < 0x1_0000 && purpose < 0x1_0000 && rec < 0x1_0000
    ensures DecLayer(rec, LayerBytes(layer, rec, purpose) + rest) == Some(((layer, purpose), rest))
  {
    ByteWidths();
    Assoc(Record(LAYER, 2, [layer]), Record(rec, 2, [purpose]), rest);
    ValueReads(LAYER, 2, layer, Record(rec, 2, [purpose]) + rest);
    ValueReads(rec, 2, purpose, rest);
  }

  lemma Assoc(a: seq<byte>, b: seq<byte>, c: seq<byte>)
    ensures a + b + c == a + (b + c)
  {
  }

  lemma Join2(a: seq<byte>, b: seq<byte>, c: seq<byte>, rest: seq<byte>)
    ensures a + (b + c) + rest == a + (b + (c + rest))
  {
  }

  /** The point list and the end record. */
  lemma OutlineReads(pts: seq<Point>, num: nat, rest: seq<byte>)
    requires Points32(pts) && 4 * (2 * |pts|) + 4 < 65535 && (num == 0 || num == 2 * |pts|)
    ensures var r := DecCheck(XY, 4, num, Record(XY, 4, Coords(pts)) + (EndBytes + rest));
      r.Some? && r.value.0 == 2 * |pts| && DecPoints(|pts|, r.value.1) == Some((pts, EndBytes + rest))
    ensures DecEnd(EndBytes + rest) == Some((0, rest))
  {
    CoordsCheck(Coords(pts), 4, num, EndBytes + rest);
    PointsRead(pts, EndBytes + rest);
    EmptyReads(ENDEL, rest);
  }

  lemma CoordsCheck(vals: seq<nat>, unit: nat, num: nat, rest: seq<byte>)
    requires unit == 4 && 4 * |vals| + 4 < 65535 && (num == 0 || num == |vals|)
    ensures DecCheck(XY, unit, num, Record(XY, unit, vals) + rest) == Some((|vals|, EncodeAll(vals, unit) + rest))
  {
    CheckReads(XY, unit, num, vals, rest);
  }

  lemma BoxReads(layer: nat, purpose: nat, b: Box, rest: seq<byte>)
    requires Writable(BoxElement(layer, purpose, b))
    ensures DecBox(PolyBytes(layer, BOXTYPE, purpose, Corners(b)) + rest)
         == Some((PolyShape(layer, purpose, Corners(b)), rest))
  {
    var pts := Corners(b);
    Join2(LayerBytes(layer, BOXTYPE, purpose), Record(XY, 4, Coords(pts)), EndBytes, rest);
    LayerReads(layer, BOXTYPE, purpose, Record(XY, 4, Coords(pts)) + (EndBytes + rest));
    OutlineReads(pts, 10, rest);
  }

  lemma BoundaryReads(layer: nat, purpose: nat, pts: seq<Point>, rest: seq<byte>)
    requires layer < 0x1_0000 && purpose < 0x1_0000 && Points32(pts) && 4 * (2 * |pts|) + 4 < 65535
    ensures DecBoundary(PolyBytes(layer, DATATYPE, purpose, pts) + rest) == Some((PolyShape(layer, purpose, pts), rest))
  {
    Join2(LayerBytes(layer, DATATYPE, purpose), Record(XY, 4, Coords(pts)), EndBytes, rest);
    LayerReads(layer, DATATYPE, purpose, Record(XY, 4, Coords(pts)) + (EndBytes + rest));
    OutlineReads(pts, 0, rest);
    assert 2 * |pts| / 2 == |pts|;
  }

  /** A polygon comes back with its first point repeated last. */
  lemma PolygonReads(layer: nat, purpose: nat, pts: seq<Point>, rest: seq<byte>)
    requires Writable(PolyElement(layer, purpose, pts))
    ensures Points32(Closed(pts))
    ensures DecBoundary(PolyBytes(layer, DATATYPE, purpose, Closed(pts)) + rest)
         == Some((PolyShape(layer, purpose, pts + [pts[0]]), rest))
  {
    ClosedBytes(pts, 4);
    BoundaryReads(layer, purpose, Closed(pts), rest);
  }

  /** The last name of a label or an instance, and the end record. */
  lemma LastNameReads(rec: nat, name: seq<byte>, rest: seq<byte>)
    requires rec < 0x1_0000 && FitsRecord(name)
    ensures DecName(rec, Record(rec, 1, name) + (EndBytes + rest))
         == if |name| == WRAPPING_LENGTH then None else Some((Padded(name), EndBytes + rest))
    ensures DecEnd(EndBytes + rest) == Some((0, rest))
  {
    NameReads(rec, name, EndBytes + rest);
    EmptyReads(ENDEL, rest);
  }

  function TextTail(layer: nat, purpose: nat, text: seq<byte>, xform: Xform, mag: Double, rest: seq<byte>): seq<byte>
    requires Placeable(xform, mag)
  {
    LayerBytes(layer, TEXTTYPE, purpose) + (Record(PRESENTATION, 2, [TEXT_PRESENTATION])
      + (TransformBytes(xform, mag) + (Record(STRING, 1, text) + (EndBytes + rest))))
  }

  lemma TextReads(layer: nat, purpose: nat, text: seq<byte>, xform: Xform, mag: Double, rest: seq<byte>)
    requires Writable(LabelElement(layer, purpose, text, xform, mag))
    ensures DecText(TextTail(layer, purpose, text, xform, mag, rest))
         == if |text| == WRAPPING_LENGTH then None
            else Some((LabelShape(layer, purpose, Padded(text), xform, MagBack(mag)), rest))
  {
    ByteWidths();
    var s4 := Record(STRING, 1, text) + (EndBytes + rest);
    var s3 := TransformBytes(xform, mag) + s4;
    var s2 := Record(PRESENTATION, 2, [TEXT_PRESENTATION]) + s3;
    LayerReads(layer, TEXTTYPE, purpose, s2);
    ValueReads(PRESENTATION, 2, TEXT_PRESENTATION, s3);
    TransformReads(xform, mag, s4);
    LastNameReads(STRING, text, rest);
    TextSteps(TextTail(layer, purpose, text, xform, mag, rest), (layer, purpose), s2, s3, (xform, MagBack(mag)), s4);
  }

  /** The steps of reading a label, up to its text. */
  lemma TextSteps(s: seq<byte>, key: (nat, nat), s2: seq<byte>, s3: seq<byte>, placed: (Xform, Dyadic), s4: seq<byte>)
    requires DecLayer(TEXTTYPE, s) == Some((key, s2)) && DecValue(PRESENTATION, 2, s2) == Some((TEXT_PRESENTATION, s3))
    requires DecTransform(s3) == Some((placed, s4))
    ensures var name := DecName(STRING, s4);
      DecText(s)
        == if name.None? || DecEnd(name.value.1).None? then None
           else Some((LabelShape(key.0, key.1, name.value.0, placed.0, placed.1), DecEnd(name.value.1).value.1))
  {
  }

  function NameTail(name: seq<byte>, rest: seq<byte>): seq<byte> {
    Record(PROPATTR, 2, [PROP_INST_NAME]) + (Record(PROPVALUE, 1, name) + (EndBytes + rest))
  }

  lemma InstNameReads(name: seq<byte>, count: nat, rest: seq<byte>)
    requires FitsRecord(name)
    ensures DecInstName(NameTail(name, rest), count)
         == if |name| == WRAPPING_LENGTH then None else Some(((Padded(name), count), rest))
  {
    ByteWidths();
    var s2 := Record(PROPVALUE, 1, name) + (EndBytes + rest);
    ValueFollows(PROPATTR, 2, PROP_INST_NAME, s2);
    TakeEncoded(PROP_INST_NAME, 2, s2);
    LastNameReads(PROPVALUE, name, rest);
  }

  lemma ValueFollows(rec: nat, unit: nat, v: nat, rest: seq<byte>)
    requires rec < 0x1_0000 && 0 < unit <= 8 && unit % 2 == 0
    ensures DecHeader(Record(rec, unit, [v]) + rest) == Some(((rec, unit), Encode(v, unit) + rest))
  {
    assert [v][1..] == [];
    assert EncodeAll([v], unit) == Encode(v, unit);
    OpenReads(rec, Encode(v, unit), rest);
  }

  function InstTail(cell: seq<byte>, name: seq<byte>, xform: Xform, rest: seq<byte>): seq<byte>
    requires Placeable(xform, ONE)
  {
    Record(SNAME, 1, cell) + (TransformBytes(xform, ONE) + NameTail(name, rest))
  }

  lemma InstanceReads(cell: seq<byte>, name: seq<byte>, xform: Xform, count: nat, masters: set<seq<byte>>, rest: seq<byte>)
    requires Writable(InstElement(cell, name, xform))
    ensures DecInstance(InstTail(cell, name, xform, rest), count, masters)
         == if ReadsBack(InstElement(cell, name, xform), masters)
            then Some(((InstShape(Padded(cell), Padded(name), xform), count), rest)) else None
  {
    NameReads(SNAME, cell, TransformBytes(xform, ONE) + NameTail(name, rest));
    TransformReads(xform, ONE, NameTail(name, rest));
    InstNameReads(name, count, rest);
  }

  /** The bytes of an element after its opening record. */
  function Tail(e: Element, rest: seq<byte>): seq<byte>
    requires Writable(e)
  {
    match e
    case BoxElement(layer, purpose, b) => PolyBytes(layer, BOXTYPE, purpose, Corners(b)) + rest
    case PolyElement(layer, purpose, pts) =>
      ClosedBytes(pts, 4);
      PolyBytes(layer, DATATYPE, purpose, Closed(pts)) + rest
    case LabelElement(layer, purpose, text, xform, mag) => TextTail(layer, purpose, text, xform, mag, rest)
    case InstElement(cell, name, xform) => InstTail(cell, name, xform, rest)
  }

  lemma Join6(a: seq<byte>, b: seq<byte>, c: seq<byte>, d: seq<byte>, e: seq<byte>, f: seq<byte>, rest: seq<byte>)
    ensures a + (b + (c + (d + (e + f)))) + rest == a + (b + (c + (d + (e + (f + rest)))))
  {
    Join4(c, d, e, f, rest);
    Join2(a, b, c + (d + (e + f)), rest);
  }

  lemma ElementSplits(e: Element, rest: seq<byte>)
    requires Writable(e)
    ensures ElementBytes(e) + rest == Record(OpenRec(e), 2, []) + Tail(e, rest)
  {
    match e
    case BoxElement(layer, purpose, b) =>
      Regroup([], Record(BOX, 2, []), PolyBytes(layer, BOXTYPE, purpose, Corners(b)), rest);
    case PolyElement(layer, purpose, pts) =>
      ClosedBytes(pts, 4);
      Regroup([], Record(BOUNDARY, 2, []), PolyBytes(layer, DATATYPE, purpose, Closed(pts)), rest);
    case LabelElement(layer, purpose, text, xform, mag) =>
      Join6(Record(TEXT, 2, []), LayerBytes(layer, TEXTTYPE, purpose), Record(PRESENTATION, 2, [TEXT_PRESENTATION]),
        TransformBytes(xform, mag), Record(STRING, 1, text), EndBytes, rest);
    case InstElement(cell, name, xform) =>
      Join6(Record(SREF, 2, []), Record(SNAME, 1, cell), TransformBytes(xform, ONE),
        Record(PROPATTR, 2, [PROP_INST_NAME]), Record(PROPVALUE, 1, name), EndBytes, rest);
  }

  /** Each element is read back unless a size field wraps or its master is missing; no made-up name is
      used. */
  lemma ElementReads(e: Element, count: nat, masters: set<seq<byte>>, rest: seq<byte>)
    requires Writable(e)
    ensures DecElement(OpenRec(e), Tail(e, rest), count, masters)
         == if ReadsBack(e, masters) then Some(((Seen(e), count), rest)) else None
  {
    match e
    case BoxElement(_, _, _) => BoxElementReads(e, count, masters, rest);
    case PolyElement(_, _, _) => PolyElementReads(e, count, masters, rest);
    case LabelElement(_, _, _, _, _) => LabelElementReads(e, count, masters, rest);
    case InstElement(cell, name, xform) => InstanceReads(cell, name, xform, count, masters, rest);
  }

  lemma BoxElementReads(e: Element, count: nat, masters: set<seq<byte>>, rest: seq<byte>)
    requires Writable(e) && e.BoxElement?
    ensures DecElement(BOX, Tail(e, rest), count, masters) == Some(((Seen(e), count), rest))
  {
    BoxReads(e.layer, e.purpose, e.box, rest);
    ShapeReads(BOX, Tail(e, rest), DecBox(Tail(e, rest)), count, masters);
  }

  lemma PolyElementReads(e: Element, count: nat, masters: set<seq<byte>>, rest: seq<byte>)
    requires Writable(e) && e.PolyElement?
    ensures DecElement(BOUNDARY, Tail(e, rest), count, masters) == Some(((Seen(e), count), rest))
  {
    PolygonReads(e.layer, e.purpose, e.pts, rest);
    ShapeReads(BOUNDARY, Tail(e, rest), DecBoundary(Tail(e, rest)), count, masters);
  }

  lemma LabelElementReads(e: Element, count: nat, masters: set<seq<byte>>, rest: seq<byte>)
    requires Writable(e) && e.LabelElement?
    ensures DecElement(TEXT, Tail(e, rest), count, masters) == if NoWrap(e) then Some(((Seen(e), count), rest)) else None
  {
    TextReads(e.layer, e.purpose, e.text, e.xform, e.mag, rest);
    ShapeReads(TEXT, Tail(e, rest), DecText(Tail(e, rest)), count, masters);
  }

  lemma ShapeReads(rec: nat, s: seq<byte>, r: Read<Shape>, count: nat, masters: set<seq<byte>>)
    requires (rec == BOX && r == DecBox(s)) || (rec == BOUNDARY && r == DecBoundary(s)) || (rec == TEXT && r == DecText(s))
    ensures DecElement(rec, s, count, masters) == if r.None? then None else Some(((r.value.0, count), r.value.1))
  {
  }

  function SeenAll(es: seq<Element>): seq<Shape>
    requires AllWritable(es)
  {
    if es == [] then []
    else
      assert Writable(es[0]);
      [Seen(es[0])] + SeenAll(es[1..])
  }

  /** A whole structure body is read back, element by element, and every byte is used, if and only if no
      size field wraps and the master of every instance is known. */
  lemma {:induction false} BodyReads(es: seq<Element>, count: nat, masters: set<seq<byte>>, rest: seq<byte>)
    requires AllWritable(es)
    ensures var r := DecBody(BodyBytes(es) + rest, count, masters);
      && (r.Some? <==> forall k :: 0 <= k < |es| ==> ReadsBack(es[k], masters))
      && (r.Some? ==> r.value == (SeenAll(es), rest))
  {
    if es == [] {
      EmptyReads(ENDSTR, rest);
    } else {
      var e, more := es[0], BodyBytes(es[1..]) + rest;
      BodyNext([], es);
      BodyStep(e, more, count, masters);
      Assoc(ElementBytes(e), BodyBytes(es[1..]), rest);
      BodyReads(es[1..], count, masters, rest);
      ReadsBackSplit(es, masters);
    }
  }

  lemma BodyStep(e: Element, more: seq<byte>, count: nat, masters: set<seq<byte>>)
    requires Writable(e)
    ensures var r := DecBody(ElementBytes(e) + more, count, masters);
      if ReadsBack(e, masters) then r == PrependShapes([Seen(e)], DecBody(more, count, masters)) else r == None
  {
    ElementSplits(e, more);
    EmptyReads(OpenRec(e), Tail(e, more));
    ElementReads(e, count, masters, more);
    DispatchReads(ElementBytes(e) + more, OpenRec(e), Tail(e, more), count, masters);
  }

  lemma DispatchReads(s: seq<byte>, rec: nat, s1: seq<byte>, count: nat, masters: set<seq<byte>>)
    requires DecHeader(s) == Some(((rec, 0), s1)) && rec != ENDSTR
    ensures var r := DecElement(rec, s1, count, masters);
      DecBody(s, count, masters)
        == if r.None? then None else PrependShapes([r.value.0.0], DecBody(r.value.1, r.value.0.1, masters))
  {
  }

  lemma ReadsBackSplit(es: seq<Element>, masters: set<seq<byte>>)
    requires es != []
    ensures (forall k :: 0 <= k < |es| ==> ReadsBack(es[k], masters))
       <==> ReadsBack(es[0], masters) && forall k :: 0 <= k < |es[1..]| ==> ReadsBack(es[1..][k], masters)
  {
    if ReadsBack(es[0], masters) && forall k :: 0 <= k < |es[1..]| ==> ReadsBack(es[1..][k], masters) {
      forall k | 0 <= k < |es|
        ensures ReadsBack(es[k], masters)
      {
        if k > 0 {
          assert ReadsBack(es[1..][k - 1], masters);
        }
      }
    }
  }

  /** The same for the code: a body written to a stream and read from it again. */
  method WriteThenRead(es: seq<Element>, masters: set<seq<byte>>) returns (r: Result<seq<Shape>>)
    requires AllWritable(es)
    ensures r.Ok? <==> forall k :: 0 <= k < |es| ==> ReadsBack(es[k], masters)
    ensures r.Ok? ==> r.value == SeenAll(es)
  {
    var out := new OStream();
    WriteBody(out, es);
    var inp := new IStream(out.bytes);
    BodyReads(es, 0, masters, []);
    assert [] + BodyBytes(es) == BodyBytes(es) == BodyBytes(es) + [];
    r := ReadBody(inp, masters);
  }
}
