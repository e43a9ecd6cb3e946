/** GDSII records and elements (gdsii/write_util.cpp, gdsii/read_util.cpp, the loop of gdsii/read.cpp).

    Every writer is proved to append a byte sequence given by an `...Bytes` function, every reader
    to compute a `Dec...` function; the round trip relates the two families.
 */
module GdsRecords {
  import opened Counts
  import opened GdsBytes
  import opened GdsReal
  import opened Transform

  const ENDSTR := 0x0700
  const BOUNDARY := 0x0800
  const SREF := 0x0A00
  const TEXT := 0x0C00
  const LAYER := 0x0D02
  const DATATYPE := 0x0E02
  const XY := 0x1003
  const ENDEL := 0x1100
  const SNAME := 0x1206
  const TEXTTYPE := 0x1602
  const PRESENTATION := 0x1701
  const STRING := 0x1906
  const STRANS := 0x1A01
  const MAG := 0x1B05
  const ANGLE := 0x1C05
  const PROPATTR := 0x2B02
  const PROPVALUE := 0x2C06
  const BOX := 0x2D00
  const BOXTYPE := 0x2E02

  const PROP_INST_NAME := 1
  const TEXT_PRESENTATION := 5

  lemma ByteWidths()
    ensures Pow256(1) == 256 && Pow256(2) == 0x1_0000 && Pow256(4) == 0x1_0000_0000 && Pow256(8) == 2 * GdsReal.TWO63
  {
    assert Pow256(4) == 0x1_0000_0000;
    assert Pow256(8) == 256 * (256 * (256 * (256 * Pow256(4))));
  }

  // ---------------------------------------------------------------------------------------------
  // 32-bit coordinates

  predicate IsInt32(x: int) {
    -0x8000_0000 <= x < 0x8000_0000
  }

  predicate IsPoint32(p: Point) {
    IsInt32(p.x) && IsInt32(p.y)
  }

  function Unsigned(x: int): nat
    requires IsInt32(x)
  {
    if x < 0 then x + 0x1_0000_0000 else x
  }

  function Signed(v: nat): int {
    if v < 0x8000_0000 then v else v - 0x1_0000_0000
  }

  predicate Points32(pts: seq<Point>) {
    forall k :: 0 <= k < |pts| ==> IsPoint32(pts[k])
  }

  /** x and y of every point in turn. */
  function Coords(pts: seq<Point>): (vals: seq<nat>)
    requires Points32(pts)
    ensures |vals| == 2 * |pts|
  {
    if pts == [] then []
    else
      assert IsPoint32(pts[0]);
      [Unsigned(pts[0].x), Unsigned(pts[0].y)] + Coords(pts[1..])
  }

  lemma {:induction false} CoordsAppend(a: seq<Point>, b: seq<Point>)
    requires Points32(a) && Points32(b)
    ensures Points32(a + b)
    ensures Coords(a + b) == Coords(a) + Coords(b)
  {
    PointsAppend(a, b);
    if a == [] {
      assert a + b == b;
    } else {
      var tail := a[1..];
      assert (a + b)[1..] == tail + b && (a + b)[0] == a[0];
      assert forall k :: 0 <= k < |tail| ==> tail[k] == a[k + 1];
      CoordsAppend(tail, b);
      assert IsPoint32(a[0]);
    }
  }

  lemma PointsAppend(a: seq<Point>, b: seq<Point>)
    requires Points32(a) && Points32(b)
    ensures Points32(a + b)
  {
  }

  // ---------------------------------------------------------------------------------------------
  // Records

  /** The size field for `size` data bytes: an odd total is rounded up in 16 bits. */
  function SizeField(size: nat): nat {
    var total := size + 4;
    if total % 2 == 1 then (total + 1) % 0x1_0000 else total
  }

  function Opening(rec: nat, size: nat): seq<byte> {
    Encode(SizeField(size), 2) + Encode(rec, 2)
  }

  /** The zero byte after an odd number of data bytes. */
  function Padding(size: nat): seq<byte> {
    if size % 2 == 1 then [0] else []
  }

  function Framed(rec: nat, data: seq<byte>): seq<byte> {
    Opening(rec, |data|) + data + Padding(|data|)
  }

  function Record(rec: nat, unit: nat, vals: seq<nat>): seq<byte> {
    Framed(rec, EncodeAll(vals, unit))
  }

  /** write<R>: the assertion bounds the size; the header announces `num` values. */
  method Write(out: OStream, rec: nat, unit: nat, num: nat, vals: seq<nat>)
    requires unit * num + 4 <= 65535
    modifies out
    ensures out.bytes == old(out.bytes) + Opening(rec, unit * num) + EncodeAll(vals, unit) + Padding(unit * num)
  {
    WriteFrame(out, rec, unit * num, unit, vals);
  }

  method WriteFrame(out: OStream, rec: nat, dataSize: nat, unit: nat, vals: seq<nat>)
    modifies out
    ensures out.bytes == old(out.bytes) + Opening(rec, dataSize) + EncodeAll(vals, unit) + Padding(dataSize)
  {
    var size := dataSize + 4;
    var addZero := false;
    if size % 2 == 1 {
      size := (size + 1) % 0x1_0000;
      addZero := true;
    }
    assert size == SizeField(dataSize);
    out.WriteBytes(size, 2);
    out.WriteBytes(rec, 2);
    Regroup(old(out.bytes), Encode(size, 2), Encode(rec, 2), []);
    out.WriteAll(vals, unit);
    if addZero {
      out.bytes := out.bytes + [0];
    }
  }

  method WriteRecord(out: OStream, rec: nat, unit: nat, vals: seq<nat>)
    requires unit * |vals| + 4 <= 65535
    modifies out
    ensures out.bytes == old(out.bytes) + Record(rec, unit, vals)
  {
    Write(out, rec, unit, |vals|, vals);
    Regroup(old(out.bytes), Opening(rec, unit * |vals|), EncodeAll(vals, unit), Padding(unit * |vals|));
  }

  lemma Regroup(a: seq<byte>, b: seq<byte>, c: seq<byte>, d: seq<byte>)
    ensures a + b + c + d == a + (b + c + d) == a + (b + (c + d))
  {
  }

  /** write_points: the header counts one point more than the list; the first point follows again. */
  method WritePoints(out: OStream, pts: seq<Point>)
    requires 0 < |pts| && 8 * (|pts| + 1) + 4 <= 65535
    requires Points32(pts)
    modifies out
    ensures Points32(Closed(pts))
    ensures out.bytes == old(out.bytes) + Record(XY, 4, Coords(Closed(pts)))
  {
    ClosedBytes(pts, 4);
    var x, y := Unsigned(pts[0].x), Unsigned(pts[0].y);
    Write(out, XY, 4, 2 * (|pts| + 1), Coords(pts));
    out.WriteBytes(x, 4);
    out.WriteBytes(y, 4);
    ClosedRecord(old(out.bytes), Coords(Closed(pts)), EncodeAll(Coords(pts), 4), Encode(x, 4), Encode(y, 4), 4);
  }

  lemma ClosedRecord(s: seq<byte>, vals: seq<nat>, a: seq<byte>, b: seq<byte>, c: seq<byte>, unit: nat)
    requires unit == 4 && EncodeAll(vals, unit) == a + b + c
    ensures s + Record(XY, unit, vals) == s + Opening(XY, 4 * |vals|) + a + [] + b + c
  {
    Regroup(s, Opening(XY, 4 * |vals|), a + b + c, []);
    Regroup(s + Opening(XY, 4 * |vals|), a, b, c);
  }

  lemma ClosedBytes(pts: seq<Point>, unit: nat)
    requires 0 < |pts| && Points32(pts)
    ensures IsPoint32(pts[0]) && Points32(Closed(pts))
    ensures EncodeAll(Coords(Closed(pts)), unit)
         == EncodeAll(Coords(pts), unit) + Encode(Unsigned(pts[0].x), unit) + Encode(Unsigned(pts[0].y), unit)
  {
    assert IsPoint32(pts[0]);
    var x, y := Unsigned(pts[0].x), Unsigned(pts[0].y);
    var last := [pts[0]];
    assert Points32(last);
    CoordsAppend(pts, last);
    assert last[1..] == [];
    assert Coords(last) == [x, y];
    EncodeAllAppend(Coords(pts), [x, y], unit);
    EncodeTwo(x, y, unit);
    Regroup([], EncodeAll(Coords(pts), unit), Encode(x, unit), Encode(y, unit));
  }

  lemma EncodeTwo(x: nat, y: nat, unit: nat)
    ensures EncodeAll([x, y], unit) == Encode(x, unit) + Encode(y, unit)
  {
    assert [x, y][1..] == [y] && [y][1..] == [];
  }

  function Closed(pts: seq<Point>): seq<Point>
    requires 0 < |pts|
  {
    pts + [pts[0]]
  }

  // ---------------------------------------------------------------------------------------------
  // Reading records

  /** Record type and data size; a size field below 4 wraps in the 64-bit subtraction. */
  function DecHeader(s: seq<byte>): (r: Read<(nat, nat)>)
    ensures r.Some? ==> |r.value.1| == |s| - 4
  {
    var (size, s1) :- Take(s, 2);
    var (rec, s2) :- Take(s1, 2);
    Some(((rec, if size >= 4 then size - 4 else size - 4 + TWO64), s2))
  }

  /** The header of the expected record: type, unit and, unless `num` is 0, count must agree. */
  function DecCheck(rec: nat, unit: nat, num: nat, s: seq<byte>): (r: Read<nat>)
    requires unit > 0
    ensures r.Some? ==> |r.value.1| == |s| - 4
    ensures r.Some? && num != 0 ==> r.value.0 == num
  {
    var ((actual, size), s1) :- DecHeader(s);
    if actual != rec || size % unit != 0 || (num != 0 && size / unit != num) then None
    else Some((size / unit, s1))
  }

  method ReadHeader(inp: IStream) returns (r: Result<(nat, nat)>)
    modifies inp
    ensures Matches(r, inp.rest, DecHeader(old(inp.rest)))
  {
    var size :- inp.ReadBytes(2);
    var rec :- inp.ReadBytes(2);
    return Ok((rec, if size >= 4 then size - 4 else size - 4 + TWO64));
  }

  /** Reads a header and seeks back over it. */
  method PeekHeader(inp: IStream) returns (r: Result<(nat, nat)>)
    modifies inp
    ensures DecHeader(old(inp.rest)).None? ==> r.Err?
    ensures DecHeader(old(inp.rest)).Some? ==> r == Ok(DecHeader(old(inp.rest)).value.0) && inp.rest == old(inp.rest)
  {
    var before := inp.rest;
    var h :- ReadHeader(inp);
    inp.rest := before;
    return Ok(h);
  }

  method CheckHeader(inp: IStream, rec: nat, unit: nat, num: nat) returns (r: Result<nat>)
    requires unit > 0
    modifies inp
    ensures Matches(r, inp.rest, DecCheck(rec, unit, num, old(inp.rest)))
  {
    var header :- ReadHeader(inp);
    var (actual, size) := header;
    if actual != rec {
      return Err;
    }
    var ans, mod := size / unit, size % unit;
    if mod != 0 {
      return Err;
    }
    if num != 0 && ans != num {
      return Err;
    }
    return Ok(ans);
  }

  /** One number of `unit` bytes. */
  function DecValue(rec: nat, unit: nat, s: seq<byte>): (r: Read<nat>)
    requires unit > 0
    ensures r.Some? ==> r.value.0 < Pow256(unit) && |r.value.1| == |s| - 4 - unit
  {
    var (_, s1) :- DecCheck(rec, unit, 1, s);
    Take(s1, unit)
  }

  method ReadValue(inp: IStream, rec: nat, unit: nat) returns (r: Result<nat>)
    requires unit > 0
    modifies inp
    ensures Matches(r, inp.rest, DecValue(rec, unit, old(inp.rest)))
  {
    var _ :- CheckHeader(inp, rec, unit, 1);
    r := inp.ReadBytes(unit);
  }

  function DecReal(rec: nat, s: seq<byte>): (r: Read<Dyadic>)
    ensures r.Some? ==> |r.value.1| == |s| - 12
  {
    ByteWidths();
    var (v, s1) :- DecValue(rec, 8, s);
    Some((GdsToDouble(v), s1))
  }

  method ReadReal(inp: IStream, rec: nat) returns (r: Result<Dyadic>)
    modifies inp
    ensures Matches(r, inp.rest, DecReal(rec, old(inp.rest)))
  {
    ByteWidths();
    var v :- ReadValue(inp, rec, 8);
    return Ok(GdsToDouble(v));
  }

  function DecChars(num: nat, s: seq<byte>): (r: Read<seq<byte>>)
    ensures r.Some? ==> |r.value.1| == |s| - num
  {
    if |s| < num then None else Some((s[..num], s[num..]))
  }

  /** No string holds this many characters, so reserving them throws. */
  const STRING_LIMIT: int := GdsReal.TWO63

  /** No vector holds this many points of eight bytes. */
  const POINT_LIMIT: int := 0x1000_0000_0000_0000

  function DecName(rec: nat, s: seq<byte>): (r: Read<seq<byte>>)
    ensures r.Some? ==> |r.value.1| <= |s| - 4
  {
    var (num, s1) :- DecCheck(rec, 1, 0, s);
    if num >= STRING_LIMIT then None else DecChars(num, s1)
  }

  method ReadName(inp: IStream, rec: nat) returns (r: Result<seq<byte>>)
    modifies inp
    ensures Matches(r, inp.rest, DecName(rec, old(inp.rest)))
  {
    var num :- CheckHeader(inp, rec, 1, 0);
    if num >= STRING_LIMIT {
      return Err;
    }
    var ans: seq<byte> := [];
    ghost var s := inp.rest;
    for idx := 0 to num
      invariant idx <= |s| && ans == s[..idx] && inp.rest == s[idx..]
    {
      var c :- inp.ReadBytes(1);
      OneByte(s[idx..]);
      ans := ans + [c];
    }
    return Ok(ans);
  }

  lemma OneByte(s: seq<byte>)
    ensures s != [] ==> Take(s, 1) == Some((s[0], s[1..]))
  {
    if s != [] {
      assert s[..1] == [s[0]];
      assert Decode([s[0]]) == 256 * Decode([]) + s[0];
    }
  }

  function DecPoint(s: seq<byte>): (r: Read<Point>)
    ensures r.Some? ==> |r.value.1| == |s| - 8
  {
    var (x, s1) :- Take(s, 4);
    var (y, s2) :- Take(s1, 4);
    Some((Point(Signed(x), Signed(y)), s2))
  }

  method ReadPoint(inp: IStream) returns (r: Result<Point>)
    modifies inp
    ensures Matches(r, inp.rest, DecPoint(old(inp.rest)))
  {
    var x :- inp.ReadBytes(4);
    var y :- inp.ReadBytes(4);
    return Ok(Point(Signed(x), Signed(y)));
  }

  function DecPoints(num: nat, s: seq<byte>): (r: Read<seq<Point>>)
    ensures r.Some? ==> |r.value.1| <= |s|
    decreases num
  {
    if num == 0 then Some(([], s))
    else
      var (p, s1) :- DecPoint(s);
      var (more, s2) :- DecPoints(num - 1, s1);
      Some(([p] + more, s2))
  }

  /** Points read so far in front of what is still to be read. */
  function Prepend(pts: seq<Point>, r: Read<seq<Point>>): Read<seq<Point>> {
    var (more, s) :- r;
    Some((pts + more, s))
  }

  method ReadPoints(inp: IStream, num: nat) returns (r: Result<seq<Point>>)
    modifies inp
    ensures Matches(r, inp.rest, DecPoints(num, old(inp.rest)))
  {
    var pts := [];
    ghost var s := inp.rest;
    PrependNone(DecPoints(num, s));
    for idx := 0 to num
      invariant Prepend(pts, DecPoints(num - idx, inp.rest)) == DecPoints(num, s)
    {
      ghost var before := inp.rest;
      var p :- ReadPoint(inp);
      PrependNext(pts, p, DecPoints(num - idx - 1, inp.rest));
      assert DecPoint(before) == Some((p, inp.rest));
      pts := pts + [p];
    }
    PrependNone(Some((pts, inp.rest)));
    assert DecPoints(0, inp.rest) == Some(([], inp.rest));
    assert pts + [] == pts;
    return Ok(pts);
  }

  lemma PrependNone(r: Read<seq<Point>>)
    ensures Prepend([], r) == r
  {
    if r.Some? {
      assert [] + r.value.0 == r.value.0;
    }
  }

  lemma PrependNext(pts: seq<Point>, p: Point, r: Read<seq<Point>>)
    ensures Prepend(pts + [p], r) == Prepend(pts, Prepend([p], r))
  {
    if r.Some? {
      assert (pts + [p]) + r.value.0 == pts + ([p] + r.value.0);
    }
  }

}
