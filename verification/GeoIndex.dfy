/** The geometry index (geo_index.cpp, geo_object.cpp, geo_instance.cpp): shapes with spacing
    margins and placed masters, each stored with a bounding box that queries prune on.

    The R-tree is the sequence of its entries; a query yields, in that order, the entries whose
    stored box meets the query box.
 */
module GeoIndex {
  import opened Counts
  import opened Transform

  datatype Value = Shape(box: Box) | Inst(master: Master, xform: Xform)

  datatype Entry = Entry(val: Value, spx: int, spy: int, bndBox: Box)

  /** The contents of an index, frozen once it is placed somewhere. */
  datatype Master = Master(entries: seq<Entry>)

  /** Smallest box around the stored boxes; an invalid box when there are none. */
  function Bounds(entries: seq<Entry>): Box {
    if entries == [] then Box(0, 0, -1, -1)
    else Merge(Bounds(entries[..|entries| - 1]), entries[|entries| - 1].bndBox)
  }

  function Merge(a: Box, b: Box): Box {
    if !b.Valid() then a
    else if !a.Valid() then b
    else Box(Min(a.xl, b.xl), Min(a.yl, b.yl), Max(a.xh, b.xh), Max(a.yh, b.yh))
  }

  function ValueBox(val: Value): Box {
    match val
    case Shape(box) => box
    case Inst(master, xform) => Bounds(master.entries).Transformed(xform)
  }

  /** get_bnd_box: geometry with an invalid box is refused. */
  function MakeEntry(val: Value, spx: int, spy: int): Result<Entry> {
    var box := ValueBox(val);
    if !box.Valid() then Err
    else Ok(Entry(val, spx, spy, Box(box.xl - spx, box.yl - spy, box.xh + spx, box.yh + spy)))
  }

  /** What insertion with non-negative spacings builds. */
  predicate WfEntry(e: Entry) {
    && e.spx >= 0 && e.spy >= 0
    && MakeEntry(e.val, e.spx, e.spy) == Ok(e)
    && (e.val.Inst? ==> e.spx == 0 && e.spy == 0 && WfEntries(e.val.master.entries) && e.val.master.entries != [])
  }

  predicate WfEntries(entries: seq<Entry>) {
    forall i :: 0 <= i < |entries| ==> WfEntry(entries[i])
  }

  /** The index itself, which `insert` extends in place. */
  class Index {
    var entries: seq<Entry>

    constructor ()
      ensures entries == []
    {
      entries := [];
    }

    method InsertShape(box: Box, spx: int, spy: int) returns (ok: bool)
      requires WfEntries(entries) && spx >= 0 && spy >= 0
      modifies this
      ensures ok <==> box.Valid()
      ensures WfEntries(entries)
      ensures entries == if ok then old(entries) + [MakeEntry(Shape(box), spx, spy).value] else old(entries)
    {
      var e := MakeEntry(Shape(box), spx, spy);
      if e.Err? {
        return false;
      }
      entries := entries + [e.value];
      return true;
    }

    /** Placing a master; an empty one is skipped. */
    method InsertInstance(master: Master, xform: Xform) returns (ok: bool)
      requires WfEntries(entries) && WfEntries(master.entries)
      modifies this
      ensures ok
      ensures WfEntries(entries)
      ensures master.entries == [] ==> entries == old(entries)
      ensures MakeEntry(Inst(master, xform), 0, 0).Ok? <==> master.entries != []
      ensures master.entries != [] ==> entries == old(entries) + [MakeEntry(Inst(master, xform), 0, 0).value]
    {
      if master.entries != [] {
        BoundsValid(master.entries);
        var e := MakeEntry(Inst(master, xform), 0, 0);
        entries := entries + [e.value];
      }
      return true;
    }
  }

  lemma {:induction false} BoundsValid(entries: seq<Entry>)
    requires WfEntries(entries) && entries != []
    ensures Bounds(entries).Valid()
    ensures forall i :: 0 <= i < |entries| ==> entries[i].bndBox.Valid() && Bounds(entries).Contains(entries[i].bndBox)
  {
    var last := entries[|entries| - 1];
    assert WfEntry(last);
    if |entries| > 1 {
      BoundsValid(entries[..|entries| - 1]);
    } else {
      assert entries[..0] == [];
    }
  }

  // ---------------------------------------------------------------------------------------------
  // Brute force: flatten the hierarchy with composed placements, then test every shape

  datatype Flat = Flat(box: Box, spx: int, spy: int)

  function Placed(s: Flat, f: Xform): Flat {
    var m := SwapIf(FlipsXY(f), s.spx, s.spy);
    Flat(s.box.Transformed(f), m.0, m.1)
  }

  /** All shapes under `entries`, seen through the placement `f`. */
  function Flatten(entries: seq<Entry>, f: Xform): seq<Flat> {
    if entries == [] then [] else FlattenEntry(entries[0], f) + Flatten(entries[1..], f)
  }

  function FlattenEntry(e: Entry, f: Xform): seq<Flat> {
    match e.val
    case Shape(box) => [Placed(Flat(box, e.spx, e.spy), f)]
    case Inst(master, g) => Flatten(master.entries, TransformBy(g, f))
  }

  /** A shape counts when it overlaps the query box grown by the larger of the two spacings. */
  predicate Hit(s: Flat, r: Box, spx: int, spy: int) {
    s.box.Overlaps(r.Expand(Max(spx, s.spx), Max(spy, s.spy)))
  }

  function Hits(shapes: seq<Flat>, r: Box, spx: int, spy: int): seq<Box> {
    if shapes == [] then []
    else (if Hit(shapes[0], r, spx, spy) then [shapes[0].box] else []) + Hits(shapes[1..], r, spx, spy)
  }

  // ---------------------------------------------------------------------------------------------
  // The pruned traversal

  /** Entries whose stored box meets the query box grown by the query spacing. */
  function Query(entries: seq<Entry>, r: Box, spx: int, spy: int): (q: seq<Entry>)
    ensures forall e :: e in q ==> e in entries
  {
    if entries == [] then []
    else
      var rest := Query(entries[1..], r, spx, spy);
      if entries[0].bndBox.Meets(Box(r.xl - spx, r.yl - spy, r.xh + spx, r.yh + spy)) then [entries[0]] + rest else rest
  }

  function PlaceAll(boxes: seq<Box>, f: Xform): seq<Box> {
    if boxes == [] then [] else [boxes[0].Transformed(f)] + PlaceAll(boxes[1..], f)
  }

  /** What the iterator should yield for the query result `q`, before its own placement. */
  function Walk(q: seq<Entry>, r: Box, spx: int, spy: int): seq<Box> {
    if q == [] then [] else WalkEntry(q[0], r, spx, spy) + Walk(q[1..], r, spx, spy)
  }

  function WalkEntry(e: Entry, r: Box, spx: int, spy: int): seq<Box>
    decreases e, 1
  {
    match e.val
    case Shape(box) => if Hit(Flat(box, e.spx, e.spy), r, spx, spy) then [box] else []
    case Inst(master, g) =>
      var r', m := r.Transformed(Invert(g)), SwapIf(FlipsXY(g), spx, spy);
      PlaceAll(Visit(master, r', m.0, m.1), g)
  }

  /** The pruned query of one index. */
  function Visit(master: Master, r: Box, spx: int, spy: int): seq<Box>
    decreases master, 2
  {
    WalkAll(master.entries, r, spx, spy)
  }

  /** `Walk` over the query result, stated over all entries: a pruned entry is skipped whole. */
  function WalkAll(entries: seq<Entry>, r: Box, spx: int, spy: int): seq<Box> {
    if entries == [] then []
    else (if entries[0].bndBox.Meets(Box(r.xl - spx, r.yl - spy, r.xh + spx, r.yh + spy))
          then WalkEntry(entries[0], r, spx, spy) else []) + WalkAll(entries[1..], r, spx, spy)
  }

  lemma {:induction false} WalkQuery(entries: seq<Entry>, r: Box, spx: int, spy: int)
    ensures Walk(Query(entries, r, spx, spy), r, spx, spy) == WalkAll(entries, r, spx, spy)
  {
    if entries != [] {
      WalkQuery(entries[1..], r, spx, spy);
      var rest := Query(entries[1..], r, spx, spy);
      assert ([entries[0]] + rest)[1..] == rest;
    }
  }

  // ---------------------------------------------------------------------------------------------
  // Stored boxes enclose every shape below them, margins included

  predicate Inside(s: Flat, b: Box) {
    s.box.Valid() && s.spx >= 0 && s.spy >= 0 && b.Contains(s.box.Expand(s.spx, s.spy))
  }

  predicate AllInside(shapes: seq<Flat>, b: Box) {
    forall i :: 0 <= i < |shapes| ==> Inside(shapes[i], b)
  }

  lemma {:induction false} FlattenInside(entries: seq<Entry>, f: Xform, b: Box)
    requires WfEntries(entries) && b.Valid()
    requires forall i :: 0 <= i < |entries| ==> b.Contains(entries[i].bndBox)
    ensures AllInside(Flatten(entries, f), b.Transformed(f))
    decreases entries
  {
    if entries != [] {
      var e := entries[0];
      assert WfEntry(e);
      FlattenEntryInside(e, f);
      BoundsValid([e]);
      assert [e][0].bndBox.Valid();
      ContainsTransforms(b, e.bndBox, f);
      FlattenInside(entries[1..], f, b);
      AllInsideWiden(FlattenEntry(e, f), e.bndBox.Transformed(f), b.Transformed(f));
    }
  }

  lemma AllInsideWiden(shapes: seq<Flat>, a: Box, b: Box)
    requires AllInside(shapes, a) && b.Contains(a)
    ensures AllInside(shapes, b)
  {
  }

  lemma {:induction false} FlattenEntryInside(e: Entry, f: Xform)
    requires WfEntry(e)
    ensures AllInside(FlattenEntry(e, f), e.bndBox.Transformed(f))
    decreases e
  {
    match e.val
    case Shape(box) =>
      PlacedInside(box, e.spx, e.spy, f);
      ShapeBox(e);
      AllInsideOne(Placed(Flat(box, e.spx, e.spy), f), box.Expand(e.spx, e.spy).Transformed(f));
    case Inst(master, g) =>
      var b := Bounds(master.entries);
      assert WfEntries(master.entries);
      BoundsValid(master.entries);
      FlattenInside(master.entries, TransformBy(g, f), b);
      InstanceBox(e);
      TransformedTwice(b, g, f);
      AllInsideWiden(FlattenEntry(e, f), b.Transformed(TransformBy(g, f)), e.bndBox.Transformed(f));
  }

  lemma ShapeBox(e: Entry)
    requires WfEntry(e) && e.val.Shape?
    ensures e.bndBox == e.val.box.Expand(e.spx, e.spy)
  {
  }

  lemma InstanceBox(e: Entry)
    requires WfEntry(e) && e.val.Inst?
    ensures e.bndBox == Bounds(e.val.master.entries).Transformed(e.val.xform)
  {
    NoMargin(ValueBox(e.val));
  }

  lemma AllInsideOne(s: Flat, b: Box)
    requires Inside(s, b)
    ensures AllInside([s], b)
  {
  }

  lemma NoMargin(b: Box)
    ensures Box(b.xl - 0, b.yl - 0, b.xh + 0, b.yh + 0) == b
  {
  }

  lemma PlacedInside(box: Box, spx: int, spy: int, f: Xform)
    requires box.Valid() && spx >= 0 && spy >= 0
    ensures Inside(Placed(Flat(box, spx, spy), f), box.Expand(spx, spy).Transformed(f))
  {
    ExpandTransforms(box, spx, spy, f);
  }

  // ---------------------------------------------------------------------------------------------
  // Pruning loses nothing

  lemma {:induction false} HitsAppend(a: seq<Flat>, b: seq<Flat>, r: Box, spx: int, spy: int)
    ensures Hits(a + b, r, spx, spy) == Hits(a, r, spx, spy) + Hits(b, r, spx, spy)
  {
    if a == [] {
      assert a + b == b;
    } else {
      assert (a + b)[1..] == a[1..] + b;
      HitsAppend(a[1..], b, r, spx, spy);
    }
  }

  /** A shape inside a stored box that misses the grown query box cannot be a hit. */
  lemma {:induction false} HitsPruned(shapes: seq<Flat>, b: Box, r: Box, spx: int, spy: int)
    requires AllInside(shapes, b) && !b.Meets(r.Expand(spx, spy))
    requires r.Valid() && spx >= 0 && spy >= 0
    ensures Hits(shapes, r, spx, spy) == []
  {
    if shapes != [] {
      assert Inside(shapes[0], b);
      HitsPruned(shapes[1..], b, r, spx, spy);
    }
  }

  /** Contact can be decided on either side of a placement. */
  lemma MeetsPullsBack(b: Box, r: Box, f: Xform, dx: int, dy: int)
    requires r.Valid() && b.Valid() && dx >= 0 && dy >= 0
    ensures var m := SwapIf(FlipsXY(f), dx, dy);
      b.Transformed(f).Meets(r.Expand(dx, dy)) <==> b.Meets(r.Transformed(Invert(f)).Expand(m.0, m.1))
  {
    var m := SwapIf(FlipsXY(f), dx, dy);
    var back := r.Transformed(Invert(f));
    InvertTransforms(r, f);
    ExpandTransforms(back, m.0, m.1, f);
    MeetsTransforms(b, back.Expand(m.0, m.1), f);
  }

  lemma MeetsTransforms(a: Box, b: Box, f: Xform)
    requires a.Valid() && b.Valid()
    ensures a.Transformed(f).Meets(b.Transformed(f)) <==> a.Meets(b)
  {
    SidesAreTransformed(a, f);
    SidesAreTransformed(b, f);
  }

  lemma {:induction false} PlaceAllAppend(a: seq<Box>, b: seq<Box>, f: Xform)
    ensures PlaceAll(a + b, f) == PlaceAll(a, f) + PlaceAll(b, f)
  {
    if a == [] {
      assert a + b == b;
    } else {
      assert (a + b)[1..] == a[1..] + b;
      PlaceAllAppend(a[1..], b, f);
    }
  }

  lemma {:induction false} PlaceAllTwice(boxes: seq<Box>, f: Xform, g: Xform)
    ensures PlaceAll(PlaceAll(boxes, f), g) == PlaceAll(boxes, TransformBy(f, g))
  {
    if boxes != [] {
      TransformedTwice(boxes[0], f, g);
      PlaceAllTwice(boxes[1..], f, g);
      assert PlaceAll(boxes, f)[1..] == PlaceAll(boxes[1..], f);
    }
  }

  lemma InvertReverses(g: Xform, f: Xform)
    ensures TransformBy(Invert(f), Invert(g)) == Invert(TransformBy(g, f))
  {
  }

  /** Undoing two placements one after the other is undoing their composition. */
  lemma PullBackTwice(r: Box, g: Xform, f: Xform)
    ensures r.Transformed(Invert(f)).Transformed(Invert(g)) == r.Transformed(Invert(TransformBy(g, f)))
  {
    TransformedTwice(r, Invert(f), Invert(g));
    InvertReverses(g, f);
  }

  /** The pruned traversal under a placement `f` yields exactly the shapes brute force finds, in
      depth-first order, each through its composed placement. */
  lemma {:induction false} WalkIsBruteForce(entries: seq<Entry>, f: Xform, r: Box, spx: int, spy: int)
    requires WfEntries(entries) && r.Valid() && spx >= 0 && spy >= 0
    ensures var r', m := r.Transformed(Invert(f)), SwapIf(FlipsXY(f), spx, spy);
      PlaceAll(WalkAll(entries, r', m.0, m.1), f) == Hits(Flatten(entries, f), r, spx, spy)
    decreases entries
  {
    if entries != [] {
      var r', m := r.Transformed(Invert(f)), SwapIf(FlipsXY(f), spx, spy);
      var e := entries[0];
      assert WfEntry(e);
      WalkIsBruteForce(entries[1..], f, r, spx, spy);
      HitsAppend(FlattenEntry(e, f), Flatten(entries[1..], f), r, spx, spy);
      EntryIsBruteForce(e, f, r, spx, spy);
      PlaceAllAppend(Kept(e, r', m.0, m.1), WalkAll(entries[1..], r', m.0, m.1), f);
      InvertTransforms(r, f);
    }
  }

  /** What one entry contributes to the traversal. */
  function Kept(e: Entry, r: Box, spx: int, spy: int): seq<Box> {
    if e.bndBox.Meets(r.Expand(spx, spy)) then WalkEntry(e, r, spx, spy) else []
  }

  lemma {:induction false} EntryIsBruteForce(e: Entry, f: Xform, r: Box, spx: int, spy: int)
    requires WfEntry(e) && r.Valid() && spx >= 0 && spy >= 0
    ensures var r', m := r.Transformed(Invert(f)), SwapIf(FlipsXY(f), spx, spy);
      PlaceAll(Kept(e, r', m.0, m.1), f) == Hits(FlattenEntry(e, f), r, spx, spy)
    decreases e
  {
    var r', m := r.Transformed(Invert(f)), SwapIf(FlipsXY(f), spx, spy);
    BoundsValid([e]);
    assert [e][0].bndBox.Valid();
    MeetsPullsBack(e.bndBox, r, f, spx, spy);
    if !e.bndBox.Meets(r'.Expand(m.0, m.1)) {
      FlattenEntryInside(e, f);
      HitsPruned(FlattenEntry(e, f), e.bndBox.Transformed(f), r, spx, spy);
    } else {
      match e.val
      case Shape(box) => ShapeIsBruteForce(box, e.spx, e.spy, f, r, spx, spy);
      case Inst(master, g) =>
        assert WfEntries(master.entries);
        var h := TransformBy(g, f);
        WalkIsBruteForce(master.entries, h, r, spx, spy);
        PullBackTwice(r, g, f);
        TransformByComposes(g, f, Point(0, 0));
        var m' := SwapIf(FlipsXY(g), m.0, m.1);
        assert m' == SwapIf(FlipsXY(h), spx, spy);
        var walk := WalkAll(master.entries, r.Transformed(Invert(h)), m'.0, m'.1);
        assert Visit(master, r'.Transformed(Invert(g)), m'.0, m'.1) == walk;
        assert WalkEntry(e, r', m.0, m.1) == PlaceAll(walk, g);
        PlaceAllTwice(WalkAll(master.entries, r.Transformed(Invert(h)), m'.0, m'.1), g, f);
    }
  }

  lemma ShapeIsBruteForce(box: Box, sx: int, sy: int, f: Xform, r: Box, spx: int, spy: int)
    requires box.Valid() && r.Valid() && sx >= 0 && sy >= 0 && spx >= 0 && spy >= 0
    ensures var r', m := r.Transformed(Invert(f)), SwapIf(FlipsXY(f), spx, spy);
      Hit(Flat(box, sx, sy), r', m.0, m.1) <==> Hit(Placed(Flat(box, sx, sy), f), r, spx, spy)
  {
    var s := SwapIf(FlipsXY(f), sx, sy);
    OverlapPullsBack(box, r, f, Max(spx, s.0), Max(spy, s.1));
  }
}
