/** The nested lazy iterator over a geometry index (geo_iterator.cpp).

    `todo` is the ghost list of shapes still to come, the current one first; every method is
    specified by what it does to that list.
 */
module GeoIterators {
  import opened Transform
  import opened GeoIndex

  const IDENTITY := Xform(Point(0, 0), R0)

  /** Nesting depth of the placed masters. */
  function Depth(entries: seq<Entry>): nat {
    if entries == [] then 0
    else
      var d, rest := EntryDepth(entries[0]), Depth(entries[1..]);
      if d > rest then d else rest
  }

  function EntryDepth(e: Entry): nat {
    match e.val
    case Shape(_) => 0
    case Inst(master, _) => 1 + Depth(master.entries)
  }

  lemma {:induction false} DepthAt(entries: seq<Entry>, i: nat)
    requires i < |entries|
    ensures EntryDepth(entries[i]) <= Depth(entries)
  {
    if i > 0 {
      DepthAt(entries[1..], i - 1);
    }
  }

  lemma {:induction false} QueryDepth(entries: seq<Entry>, r: Box, spx: int, spy: int)
    ensures Depth(Query(entries, r, spx, spy)) <= Depth(entries)
  {
    if entries != [] {
      QueryDepth(entries[1..], r, spx, spy);
      var rest := Query(entries[1..], r, spx, spy);
      assert ([entries[0]] + rest)[1..] == rest;
    }
  }

  class GeoIterator {
    var box: Box
    var spx: int
    var spy: int
    var query: seq<Entry>
    var cur: nat
    var xform: Xform
    var inner: GeoIterator?
    var curVal: Box
    ghost var todo: seq<Box>
    ghost var Repr: set<object>

    /** Every inner iterator is well-formed and shallower. */
    ghost predicate Linked()
      reads this, Repr
      decreases Repr, 0
    {
      && this in Repr
      && cur <= |query|
      && (inner != null ==>
        && inner in Repr && inner.Repr <= Repr && this !in inner.Repr
        && inner.Valid()
        && cur < |query| && Depth(inner.query) < Depth(query))
    }

    /** What is still to come before this iterator's own placement is applied. */
    ghost function Pending(): seq<Box>
      reads this, inner
    {
      if inner != null && cur < |query| then inner.todo + Walk(query[cur + 1..], box, spx, spy)
      else if cur <= |query| then Walk(query[cur..], box, spx, spy)
      else []
    }

    /** At rest: positioned on a shape that is a hit, on a non-empty inner iterator, or at the end. */
    ghost predicate Valid()
      reads this, Repr
      ensures Valid() ==> this in Repr
      decreases Repr, 1
    {
      && Linked() && cur <= |query|
      && todo == PlaceAll(Pending(), xform)
      && (cur < |query| <==> todo != [])
      && (todo != [] ==> curVal == todo[0] && OnHit())
    }

    constructor (box: Box, spx: int, spy: int, query: seq<Entry>, xform: Xform)
      ensures Valid() && fresh(Repr)
      ensures this.query == query
      ensures todo == PlaceAll(Walk(query, box, spx, spy), xform)
      decreases Depth(query), 3
    {
      this.box, this.spx, this.spy, this.query, this.cur, this.xform := box, spx, spy, query, 0, xform;
      this.inner, this.curVal, this.todo, this.Repr := null, Box(0, 0, 0, 0), [], {this};
      new;
      assert query[0..] == query;
      GetValReference();
    }

    predicate HasNext()
      reads this
    {
      cur != |query|
    }

    /** Positioned on something to yield: a shape that is a hit, or a non-empty inner iterator. */
    ghost predicate OnHit()
      reads this, inner
    {
      && cur < |query|
      && (inner != null ==> inner.todo != [])
      && (inner == null ==> query[cur].val.Shape? && WalkEntry(query[cur], box, spx, spy) == [query[cur].val.box])
    }

    /** The visitor: handles the current entry when there is no inner iterator; false stops the search. */
    method VisitCurrent() returns (repeat: bool)
      requires Linked() && inner == null && cur < |query|
      modifies this
      ensures Linked() && fresh(Repr - old(Repr))
      ensures box == old(box) && spx == old(spx) && spy == old(spy) && query == old(query) && xform == old(xform)
      ensures Pending() == old(Pending())
      ensures repeat ==> cur == old(cur) + 1 || (cur == old(cur) && inner != null)
      ensures !repeat ==> OnHit() && Pending() != [] && curVal == Pending()[0].Transformed(xform)
      decreases Depth(query), 0
    {
      var e := query[cur];
      assert query[cur..][1..] == query[cur + 1..];
      match e.val
      case Inst(_, _) =>
        DepthAt(query, cur);
        var it := BeginIntersect(e, box, spx, spy);
        inner := it;
        Repr := {this} + it.Repr;
        repeat := true;
      case Shape(shape) =>
        var hit := TestShape(e, box, spx, spy);
        if !hit {
          cur := cur + 1;
          repeat := true;
        } else {
          curVal := shape.Transformed(xform);
          repeat := false;
        }
    }

    /** Moves on to the next hit: enters instances, skips shapes that miss, leaves inner iterators
        that are exhausted. */
    method GetValReference()
      requires Linked()
      modifies this
      ensures Valid() && fresh(Repr - old(Repr))
      ensures query == old(query) && todo == PlaceAll(old(Pending()), old(xform))
      decreases Depth(query), 2
    {
      Advance();
      todo := PlaceAll(Pending(), xform);
    }

    /** The loop: ends on something to yield or at the end of the query. */
    method Advance()
      requires Linked()
      modifies this
      ensures Linked() && fresh(Repr - old(Repr))
      ensures query == old(query) && xform == old(xform) && Pending() == old(Pending())
      ensures (OnHit() && Pending() != [] && curVal == Pending()[0].Transformed(xform)) || (inner == null && cur == |query|)
      decreases Depth(query), 1
    {
      ghost var pending := Pending();
      var repeat := true;
      while repeat
        invariant Linked() && fresh(Repr - old(Repr))
        invariant query == old(query) && xform == old(xform) && Pending() == pending
        invariant !repeat ==> OnHit() && pending != [] && curVal == pending[0].Transformed(xform)
        decreases if repeat then 1 else 0, |query| - cur, if inner == null then 1 else 0
      {
        if inner == null {
          if cur == |query| {
            return;
          }
          repeat := VisitCurrent();
        } else if inner.HasNext() {
          TakeInner();
          repeat := false;
        } else {
          LeaveInner();
        }
      }
    }

    /** The current item of the inner iterator, placed once more. */
    method TakeInner()
      requires Linked() && inner != null && inner.HasNext()
      modifies this`curVal
      ensures Linked() && OnHit() && Pending() == old(Pending()) && Pending() != []
      ensures curVal == Pending()[0].Transformed(xform)
    {
      assert inner.todo != [];
      curVal := inner.curVal.Transformed(xform);
    }

    /** An exhausted inner iterator is dropped. */
    method LeaveInner()
      requires Linked() && inner != null && !inner.HasNext()
      modifies this
      ensures Linked() && Repr <= old(Repr)
      ensures box == old(box) && spx == old(spx) && spy == old(spy) && query == old(query) && xform == old(xform)
      ensures Pending() == old(Pending()) && inner == null && cur == old(cur) + 1
    {
      assert inner.todo == [];
      inner := null;
      cur := cur + 1;
      Repr := {this};
    }

    /** Prefix increment. */
    method Next()
      requires Valid() && HasNext()
      modifies Repr
      ensures Valid() && fresh(Repr - old(Repr))
      ensures query == old(query) && old(todo) != [] && todo == old(todo)[1..]
      decreases Depth(query), 3
    {
      ghost var pending := Pending();
      if inner == null {
        StepQuery();
      } else {
        StepInner();
      }
      assert pending != [] && PlaceAll(pending, xform)[1..] == PlaceAll(pending[1..], xform);
      GetValReference();
    }

    method StepQuery()
      requires Valid() && HasNext() && inner == null
      modifies this
      ensures Linked() && fresh(Repr - old(Repr))
      ensures query == old(query) && xform == old(xform)
      ensures old(Pending()) != [] && Pending() == old(Pending())[1..]
    {
      assert query[cur..][1..] == query[cur + 1..];
      cur := cur + 1;
      Repr := {this};
    }

    method StepInner()
      requires Valid() && HasNext() && inner != null
      modifies Repr
      ensures Linked() && fresh(Repr - old(Repr))
      ensures query == old(query) && xform == old(xform)
      ensures old(Pending()) != [] && Pending() == old(Pending())[1..]
      decreases Depth(query), 1
    {
      ghost var rest := Walk(query[cur + 1..], box, spx, spy);
      TailOfAppend(inner.todo, rest);
      inner.Next();
      Repr := {this} + inner.Repr;
    }
  }

  lemma TailOfAppend<T>(a: seq<T>, b: seq<T>)
    requires a != []
    ensures (a + b)[1..] == a[1..] + b
  {
  }

  /** The leaf test: the query box is grown by the larger of the two spacings. */
  method TestShape(e: Entry, box: Box, spx: int, spy: int) returns (hit: bool)
    requires e.val.Shape?
    ensures WalkEntry(e, box, spx, spy) == if hit then [e.val.box] else []
  {
    var testBox := box.Expand(Max(spx, e.spx), Max(spy, e.spy));
    hit := e.val.box.Overlaps(testBox);
  }

  /** geo_instance::begin_intersect: pulls the query back through the placement. */
  method BeginIntersect(e: Entry, r: Box, spx: int, spy: int) returns (it: GeoIterator)
    requires e.val.Inst?
    ensures it.Valid() && fresh(it.Repr)
    ensures Depth(it.query) < EntryDepth(e)
    ensures it.todo == WalkEntry(e, r, spx, spy)
    decreases Depth(e.val.master.entries), 5
  {
    var g := e.val.xform;
    var spxNew, spyNew := spx, spy;
    var testR := r.Transformed(Invert(g));
    if FlipsXY(g) {
      spxNew, spyNew := spy, spx;
    }
    it := BeginIntersectIndex(e.val.master, testR, spxNew, spyNew, g);
  }

  /** geo_index::begin_intersect: runs the tree query and wraps it. */
  method BeginIntersectIndex(master: Master, r: Box, spx: int, spy: int, xform: Xform) returns (it: GeoIterator)
    ensures it.Valid() && fresh(it.Repr)
    ensures Depth(it.query) <= Depth(master.entries)
    ensures it.todo == PlaceAll(Visit(master, r, spx, spy), xform)
    decreases Depth(master.entries), 4
  {
    var query := Query(master.entries, r, spx, spy);
    QueryDepth(master.entries, r, spx, spy);
    WalkQuery(master.entries, r, spx, spy);
    it := new GeoIterator(r, spx, spy, query, xform);
  }

  /** Stepping from construction until has_next is false: every surviving leaf once, in order. */
  method Collect(it: GeoIterator) returns (out: seq<Box>)
    requires it.Valid()
    modifies it.Repr
    ensures out == old(it.todo)
    ensures it.Valid() && !it.HasNext()
  {
    out := [];
    while it.HasNext()
      invariant it.Valid() && fresh(it.Repr - old(it.Repr))
      invariant out + it.todo == old(it.todo)
      decreases |it.todo|
    {
      OneMore(out, it.todo);
      out := out + [it.curVal];
      it.Next();
    }
  }

  lemma OneMore<T>(a: seq<T>, b: seq<T>)
    ensures b != [] ==> (a + [b[0]]) + b[1..] == a + b
  {
  }

  lemma {:induction false} PlaceAllIdentity(boxes: seq<Box>)
    ensures PlaceAll(boxes, IDENTITY) == boxes
  {
    if boxes != [] {
      IdentityBox(boxes[0], IDENTITY);
      PlaceAllIdentity(boxes[1..]);
    }
  }

  lemma VisitIsBruteForce(master: Master, r: Box, spx: int, spy: int)
    requires WfEntries(master.entries) && r.Valid() && spx >= 0 && spy >= 0
    ensures Visit(master, r, spx, spy) == Hits(Flatten(master.entries, IDENTITY), r, spx, spy)
  {
    WalkIsBruteForce(master.entries, IDENTITY, r, spx, spy);
    PlaceAllIdentity(Visit(master, r, spx, spy));
    PulledBackByIdentity(r);
  }

  lemma PulledBackByIdentity(r: Box)
    ensures r.Transformed(Invert(IDENTITY)) == r && !FlipsXY(IDENTITY)
  {
    InvertIdentity(IDENTITY);
    IdentityBox(r, IDENTITY);
  }

  predicate IsIdentity(f: Xform) {
    f.shift == Point(0, 0) && !f.orient.flipX && !f.orient.flipY && !f.orient.swap
  }

  lemma InvertIdentity(f: Xform)
    requires IsIdentity(f)
    ensures Invert(f) == f
  {
  }

  lemma IdentityBox(b: Box, f: Xform)
    requires IsIdentity(f)
    ensures b.Transformed(f) == b
  {
  }

  /** A whole query: the lazy, pruned, nested iteration returns what brute force over the flattened
      hierarchy returns. */
  method FindAll(master: Master, r: Box, spx: int, spy: int, xform: Xform) returns (out: seq<Box>)
    requires WfEntries(master.entries) && r.Valid() && spx >= 0 && spy >= 0
    ensures out == PlaceAll(Hits(Flatten(master.entries, IDENTITY), r, spx, spy), xform)
  {
    var it := BeginIntersectIndex(master, r, spx, spy, xform);
    VisitIsBruteForce(master, r, spx, spy);
    out := Collect(it);
  }
}
