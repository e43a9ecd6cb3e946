/** Sorted vectors of disjoint half-open intervals (util/interval.h over util/sorted_vector.h).

    The vector is ordered by "ends before the other starts", so two intervals that overlap compare
    as equal and an equal_range is the run of stored intervals that overlap the key.
 */
module Intervals {
  import opened Counts

  datatype Intv = Intv(start: int, stop: int) {
    predicate Nonempty() {
      start < stop
    }

    predicate Has(p: int) {
      start <= p < stop
    }
  }

  /** intv_comp */
  predicate Less(a: Intv, b: Intv) {
    a.stop <= b.start
  }

  predicate Overlap(a: Intv, b: Intv) {
    !Less(a, b) && !Less(b, a)
  }

  /** Sorted, pairwise disjoint, no empty interval. */
  predicate Disjoint(data: seq<Intv>) {
    && (forall i :: 0 <= i < |data| ==> data[i].Nonempty())
    && (forall i, j :: 0 <= i < j < |data| ==> Less(data[i], data[j]))
  }

  /** The point set the vector stands for. */
  predicate Covers(data: seq<Intv>, p: int) {
    exists i :: 0 <= i < |data| && data[i].Has(p)
  }

  // ---------------------------------------------------------------------------------------------
  // Binary search

  /** std::lower_bound: the first interval that does not end before the key starts. */
  method LowerBound(data: seq<Intv>, key: Intv) returns (pos: nat)
    requires Disjoint(data)
    ensures pos <= |data|
    ensures forall i :: 0 <= i < pos ==> Less(data[i], key)
    ensures forall i :: pos <= i < |data| ==> !Less(data[i], key)
  {
    pos := 0;
    var len := |data|;
    while len > 0
      invariant 0 <= len && pos + len <= |data|
      invariant forall i :: 0 <= i < pos ==> Less(data[i], key)
      invariant forall i :: pos + len <= i < |data| ==> !Less(data[i], key)
    {
      var half := len / 2;
      var mid := pos + half;
      if Less(data[mid], key) {
        assert forall i :: 0 <= i < mid ==> data[i].stop <= data[mid].start < data[mid].stop;
        pos, len := mid + 1, len - half - 1;
      } else {
        assert forall i :: mid < i < |data| ==> data[mid].stop <= data[i].start < data[i].stop;
        len := half;
      }
    }
  }

  /** std::upper_bound: the first interval that starts after the key has ended. */
  method UpperBound(data: seq<Intv>, key: Intv) returns (pos: nat)
    requires Disjoint(data)
    ensures pos <= |data|
    ensures forall i :: 0 <= i < pos ==> !Less(key, data[i])
    ensures forall i :: pos <= i < |data| ==> Less(key, data[i])
  {
    pos := 0;
    var len := |data|;
    while len > 0
      invariant 0 <= len && pos + len <= |data|
      invariant forall i :: 0 <= i < pos ==> !Less(key, data[i])
      invariant forall i :: pos + len <= i < |data| ==> Less(key, data[i])
    {
      var half := len / 2;
      var mid := pos + half;
      if !Less(key, data[mid]) {
        assert forall i :: 0 <= i < mid ==> data[i].start < data[i].stop <= data[mid].start;
        pos, len := mid + 1, len - half - 1;
      } else {
        assert forall i :: mid < i < |data| ==> data[mid].start < data[mid].stop <= data[i].start;
        len := half;
      }
    }
  }

  /** The run lo..hi of stored intervals that overlap the key. */
  predicate IsRun(data: seq<Intv>, key: Intv, lo: nat, hi: nat) {
    && lo <= hi <= |data|
    && (forall i :: 0 <= i < lo ==> Less(data[i], key))
    && (forall i :: lo <= i < hi ==> Overlap(data[i], key))
    && (forall i :: hi <= i < |data| ==> Less(key, data[i]))
  }

  /** std::equal_range, which needs a key that does not end before it starts. */
  method EqualRange(data: seq<Intv>, key: Intv) returns (lo: nat, hi: nat)
    requires Disjoint(data) && key.start <= key.stop
    ensures IsRun(data, key, lo, hi)
  {
    lo := LowerBound(data, key);
    hi := UpperBound(data, key);
    assert hi < |data| ==> data[hi].Nonempty();
  }

  predicate AnyOverlap(data: seq<Intv>, key: Intv) {
    exists i :: 0 <= i < |data| && Overlap(data[i], key)
  }

  // ---------------------------------------------------------------------------------------------
  // Editing

  datatype Outcome = Added | Refused | Invalid

  class DisjointIntvs {
    var data: seq<Intv>

    constructor ()
      ensures data == []
    {
      data := [];
    }

    predicate Valid()
      reads this
    {
      Disjoint(data)
    }

    /** Removes one interval by exact value. */
    method Remove(key: Intv) returns (found: bool)
      requires Valid()
      modifies this
      ensures Valid() && (found <==> key in old(data) && key.Nonempty())
      ensures forall x :: x in data <==> x in old(data) && x != key
    {
      var pos := LowerBound(data, key);
      if pos == |data| || data[pos] != key {
        NotElsewhere(data, key, pos);
        return false;
      }
      RunRemoved(data, pos, pos + 1);
      NotElsewhere(data, key, pos);
      data := data[..pos] + data[pos + 1..];
      return true;
    }

    /** Removes every interval that overlaps the key. */
    method RemoveOverlaps(key: Intv) returns (found: bool)
      requires Valid() && key.start <= key.stop
      modifies this
      ensures Valid() && (found <==> AnyOverlap(old(data), key))
      ensures forall x :: x in data <==> x in old(data) && !Overlap(x, key)
    {
      var lo, hi := EqualRange(data, key);
      if lo == hi {
        return false;
      }
      assert Overlap(data[lo], key);
      RunRemoved(data, lo, hi);
      RunMembers(data, key, lo, hi);
      data := data[..lo] + data[hi..];
      return true;
    }

    /** Subtracts the key.  When the key lies strictly inside one interval only the left piece
        survives, so the points from the end of the key to the end of that interval are lost too. */
    method Subtract(key: Intv) returns (found: bool)
      requires Valid() && key.start <= key.stop
      modifies this
      ensures Valid() && (found <==> AnyOverlap(old(data), key))
      ensures forall p :: Covers(data, p) <==> Covers(old(data), p) && !key.Has(p) && !RightOfInside(old(data), key, p)
    {
      var startIter, stopIter := EqualRange(data, key);
      ghost var lo, hi := startIter, stopIter;
      var overlapSize := stopIter - startIter;
      if overlapSize == 0 {
        SubtractNothing(data, key, lo);
        return false;
      }
      assert Overlap(data[lo], key);
      if data[startIter].start < key.start {
        data := data[startIter := Intv(data[startIter].start, key.start)];
        startIter := startIter + 1;
        overlapSize := overlapSize - 1;
        if overlapSize == 0 {
          assert data == Subtracted(old(data), key, lo, hi);
          SubtractedMeaning(old(data), key, lo, hi);
          return true;
        }
      }
      var lastIter := stopIter - 1;
      if key.stop < data[lastIter].stop {
        data := data[lastIter := Intv(key.stop, data[lastIter].stop)];
        stopIter := lastIter;
        overlapSize := overlapSize - 1;
        if overlapSize == 0 {
          assert data == Subtracted(old(data), key, lo, hi);
          SubtractedMeaning(old(data), key, lo, hi);
          return true;
        }
      }
      data := data[..startIter] + data[stopIter..];
      assert data == Subtracted(old(data), key, lo, hi);
      SubtractedMeaning(old(data), key, lo, hi);
      return true;
    }

    /** Adds an interval; overlapping (or, with `abut`, touching) ones are merged or the call refused. */
    method Emplace(merge: bool, abut: bool, item: Intv) returns (r: Outcome)
      requires Valid()
      modifies this
      ensures Valid()
      ensures r == Invalid <==> !item.Nonempty()
      ensures r == Refused <==> item.Nonempty() && !merge && AnyOverlap(old(data), item)
      ensures r != Added ==> data == old(data)
      ensures r == Added ==> forall p :: Covers(data, p) <==> Covers(old(data), p) || item.Has(p)
      ensures r == Added ==> exists i :: 0 <= i < |data| && data[i].start <= item.start && item.stop <= data[i].stop
    {
      if !item.Nonempty() {
        return Invalid;
      }
      var abut := abut && merge;
      var key := if abut then Intv(item.start - 1, item.stop + 1) else item;
      var lo, hi := EqualRange(data, key);
      if lo == hi {
        InsertFits(data, item, key, lo);
        assert !AnyOverlap(data, item);
        InsertUnique(item, lo);
        return Added;
      } else if merge {
        MergeInto(item, key, lo, hi);
        return Added;
      }
      assert Overlap(data[lo], item);
      return Refused;
    }

    /** The merging branch: the first interval of the run grows over it, the rest is erased. */
    method MergeInto(item: Intv, ghost key: Intv, lo: nat, hi: nat)
      requires Valid() && item.Nonempty() && IsRun(data, key, lo, hi) && lo < hi
      requires key == item || key == Intv(item.start - 1, item.stop + 1)
      modifies this
      ensures Valid()
      ensures forall p :: Covers(data, p) <==> Covers(old(data), p) || item.Has(p)
      ensures lo < |data| && data[lo].start <= item.start && item.stop <= data[lo].stop
    {
      var ovlStart, ovlStop := data[lo].start, data[hi - 1].stop;
      var merged := Intv(if item.start <= ovlStart then item.start else ovlStart, if item.stop >= ovlStop then item.stop else ovlStop);
      MergeRun(data, item, key, lo, hi, merged);
      data := data[lo := merged];
      data := data[..lo + 1] + data[hi..];
      assert data == old(data)[..lo] + [merged] + old(data)[hi..];
    }

    /** sorted_vector::insert_unique */
    method InsertUnique(item: Intv, ghost at: nat)
      requires Valid() && item.Nonempty()
      requires IsRun(data, item, at, at)
      modifies this
      ensures data == old(data)[..at] + [item] + old(data)[at..]
      ensures Valid() && data[at] == item
      ensures forall p :: Covers(data, p) <==> Covers(old(data), p) || item.Has(p)
    {
      var pos := LowerBound(data, item);
      assert at < |data| ==> data[at].Nonempty();
      assert pos < |data| ==> data[pos].Nonempty();
      InsertCovers(data, item, pos);
      if pos == |data| || Less(item, data[pos]) {
        data := data[..pos] + [item] + data[pos..];
      }
    }
  }

  /** Points to the right of a key that lies strictly inside one stored interval. */
  predicate RightOfInside(data: seq<Intv>, key: Intv, p: int) {
    exists i :: 0 <= i < |data| && StrictlyInside(data[i], key) && key.stop <= p < data[i].stop
  }

  predicate StrictlyInside(x: Intv, key: Intv) {
    x.start < key.start && key.stop < x.stop
  }

  /** `subtract` denotes set difference if and only if the key is strictly inside no interval. */
  lemma SubtractIsDifference(before: seq<Intv>, after: seq<Intv>, key: Intv)
    requires Disjoint(before) && key.start <= key.stop
    requires forall p :: Covers(after, p) <==> Covers(before, p) && !key.Has(p) && !RightOfInside(before, key, p)
    ensures (forall p :: Covers(after, p) <==> Covers(before, p) && !key.Has(p))
       <==> (forall i :: 0 <= i < |before| ==> !StrictlyInside(before[i], key))
  {
    if i :| 0 <= i < |before| && StrictlyInside(before[i], key) {
      var p := key.stop;
      assert before[i].Has(p) && !key.Has(p);
      assert Covers(before, p) && RightOfInside(before, key, p);
      assert !Covers(after, p);
    }
  }

  /** Subtracting [3, 5) from [0, 10) loses [5, 10) as well. */
  method SubtractInside() returns (left: seq<Intv>)
    ensures forall p :: Covers(left, p) <==> 0 <= p < 3
  {
    var s := new DisjointIntvs();
    var item, key := Intv(0, 10), Intv(3, 5);
    var _ := s.Emplace(false, false, item);
    OnlyPoints(s.data, item, key);
    var _ := s.Subtract(key);
    left := s.data;
  }

  lemma OnlyPoints(data: seq<Intv>, item: Intv, key: Intv)
    requires Disjoint(data) && StrictlyInside(item, key) && key.Nonempty()
    requires forall p :: Covers(data, p) <==> item.Has(p)
    requires exists i :: 0 <= i < |data| && data[i].start <= item.start && item.stop <= data[i].stop
    ensures forall p :: RightOfInside(data, key, p) <==> key.stop <= p < item.stop
  {
    var i :| 0 <= i < |data| && data[i].start <= item.start && item.stop <= data[i].stop;
    EndsOfPoints(data, item, i);
    assert StrictlyInside(data[i], key);
    forall j | 0 <= j < |data| && StrictlyInside(data[j], key)
      ensures j == i
    {
      assert data[j].Has(key.start) && data[i].Has(key.start);
      OneOwner(data, key.start);
    }
  }

  lemma EndsOfPoints(data: seq<Intv>, item: Intv, i: nat)
    requires i < |data| && data[i].start <= item.start < item.stop <= data[i].stop
    requires forall p :: Covers(data, p) <==> item.Has(p)
    ensures data[i] == item
  {
    assert data[i].Has(data[i].start) && data[i].Has(data[i].stop - 1);
    assert Covers(data, data[i].start) && Covers(data, data[i].stop - 1);
  }

  lemma NotElsewhere(data: seq<Intv>, key: Intv, pos: nat)
    requires Disjoint(data) && pos <= |data|
    requires forall i :: 0 <= i < pos ==> Less(data[i], key)
    requires forall i :: pos <= i < |data| ==> !Less(data[i], key)
    ensures forall i :: 0 <= i < |data| && data[i] == key ==> i == pos
    ensures key in data ==> key.Nonempty()
  {
    forall i | 0 <= i < |data| && data[i] == key
      ensures i == pos
    {
      assert data[i].Nonempty();
      assert pos < |data| ==> data[pos].Nonempty();
    }
  }

  lemma RunRemoved(data: seq<Intv>, lo: nat, hi: nat)
    requires Disjoint(data) && lo <= hi <= |data|
    ensures Disjoint(data[..lo] + data[hi..])
    ensures forall x :: x in data[..lo] + data[hi..] <==> exists i :: 0 <= i < |data| && !(lo <= i < hi) && data[i] == x
  {
    var rest := data[..lo] + data[hi..];
    assert forall i :: 0 <= i < |rest| ==> rest[i] == data[if i < lo then i else i + hi - lo];
    forall x
      ensures x in rest <==> exists i :: 0 <= i < |data| && !(lo <= i < hi) && data[i] == x
    {
      if i :| 0 <= i < |data| && !(lo <= i < hi) && data[i] == x {
        assert rest[if i < lo then i else i - (hi - lo)] == x;
      }
    }
  }

  lemma RunMembers(data: seq<Intv>, key: Intv, lo: nat, hi: nat)
    requires IsRun(data, key, lo, hi) && key.start <= key.stop
    requires Disjoint(data)
    ensures forall i :: 0 <= i < |data| ==> (Overlap(data[i], key) <==> lo <= i < hi)
  {
  }

  // ---------------------------------------------------------------------------------------------
  // Point sets of edited vectors

  lemma CoversAppend(a: seq<Intv>, b: seq<Intv>)
    ensures forall p :: Covers(a + b, p) <==> Covers(a, p) || Covers(b, p)
  {
    forall p
      ensures Covers(a + b, p) <==> Covers(a, p) || Covers(b, p)
    {
      if i :| 0 <= i < |a| && a[i].Has(p) {
        assert (a + b)[i].Has(p);
      }
      if i :| 0 <= i < |b| && b[i].Has(p) {
        assert (a + b)[|a| + i].Has(p);
      }
    }
  }

  lemma InsertCovers(data: seq<Intv>, item: Intv, pos: nat)
    requires Disjoint(data) && IsRun(data, item, pos, pos) && item.Nonempty()
    ensures Disjoint(data[..pos] + [item] + data[pos..])
    ensures forall p :: Covers(data[..pos] + [item] + data[pos..], p) <==> Covers(data, p) || item.Has(p)
    ensures pos == |data| || Less(item, data[pos])
  {
    assert data == data[..pos] + data[pos..];
    CoversAppend(data[..pos], data[pos..]);
    CoversAppend(data[..pos], [item]);
    CoversAppend(data[..pos] + [item], data[pos..]);
    assert forall p :: Covers([item], p) <==> [item][0].Has(p);
  }

  /** Without overlaps with the (possibly widened) key there is none with the item either. */
  lemma InsertFits(data: seq<Intv>, item: Intv, key: Intv, lo: nat)
    requires Disjoint(data) && item.Nonempty() && key.start <= item.start && item.stop <= key.stop
    requires IsRun(data, key, lo, lo)
    ensures IsRun(data, item, lo, lo)
  {
  }

  /** Replacing a run of overlapping or touching intervals by one interval around it and the item. */
  lemma MergeRun(data: seq<Intv>, item: Intv, key: Intv, lo: nat, hi: nat, merged: Intv)
    requires Disjoint(data) && item.Nonempty() && IsRun(data, key, lo, hi) && lo < hi
    requires key == item || key == Intv(item.start - 1, item.stop + 1)
    requires merged.start == if item.start <= data[lo].start then item.start else data[lo].start
    requires merged.stop == if item.stop >= data[hi - 1].stop then item.stop else data[hi - 1].stop
    ensures Disjoint(data[..lo] + [merged] + data[hi..])
    ensures forall p :: Covers(data[..lo] + [merged] + data[hi..], p) <==> Covers(data, p) || item.Has(p)
  {
    assert data == data[..lo] + data[lo..hi] + data[hi..];
    CoversAppend(data[..lo], data[lo..hi]);
    CoversAppend(data[..lo] + data[lo..hi], data[hi..]);
    CoversAppend(data[..lo], [merged]);
    CoversAppend(data[..lo] + [merged], data[hi..]);
    assert forall p :: Covers([merged], p) <==> [merged][0].Has(p);
    forall p
      ensures merged.Has(p) || Covers(data, p) <==> Covers(data, p) || item.Has(p)
      ensures Covers(data[lo..hi], p) ==> merged.Has(p)
    {
      if merged.Has(p) && !item.Has(p) {
        if p < item.start {
          assert data[lo].Has(p);
        } else {
          assert data[hi - 1].Has(p);
        }
      }
      if i :| 0 <= i < |data[lo..hi]| && data[lo..hi][i].Has(p) {
        assert data[lo + i].Has(p);
        assert data[lo].start <= data[lo + i].start && data[lo + i].stop <= data[hi - 1].stop;
      }
    }
    MergedDisjoint(data, item, key, lo, hi, merged);
  }

  lemma MergedDisjoint(data: seq<Intv>, item: Intv, key: Intv, lo: nat, hi: nat, merged: Intv)
    requires Disjoint(data) && item.Nonempty() && IsRun(data, key, lo, hi) && lo < hi
    requires key == item || key == Intv(item.start - 1, item.stop + 1)
    requires merged.start == if item.start <= data[lo].start then item.start else data[lo].start
    requires merged.stop == if item.stop >= data[hi - 1].stop then item.stop else data[hi - 1].stop
    ensures Disjoint(data[..lo] + [merged] + data[hi..])
  {
    var out := data[..lo] + [merged] + data[hi..];
    assert forall i :: 0 <= i < lo ==> out[i] == data[i] && Less(data[i], data[lo]) && Less(data[i], key);
    forall i | lo < i < |out|
      ensures Less(merged, out[i]) && out[i] == data[i + hi - lo - 1]
    {
      assert Less(data[hi - 1], data[i + hi - lo - 1]) && Less(key, data[i + hi - lo - 1]);
    }
    assert data[lo].Nonempty() && data[hi - 1].Nonempty();
  }

  lemma SubtractNothing(data: seq<Intv>, key: Intv, lo: nat)
    requires Disjoint(data) && IsRun(data, key, lo, lo) && key.start <= key.stop
    ensures !AnyOverlap(data, key)
    ensures forall p :: Covers(data, p) ==> !key.Has(p) && !RightOfInside(data, key, p)
  {
  }

  /** What is left of the first interval of the run, in front of the key. */
  function LeftPiece(data: seq<Intv>, key: Intv, lo: nat): seq<Intv>
    requires lo < |data|
  {
    if data[lo].start < key.start then [Intv(data[lo].start, key.start)] else []
  }

  /** What is kept of the last interval behind the key: nothing if it was also the first and a left
      piece was already kept. */
  function RightPiece(data: seq<Intv>, key: Intv, lo: nat, hi: nat): seq<Intv>
    requires lo < hi <= |data|
  {
    if (hi - lo > 1 || data[lo].start >= key.start) && key.stop < data[hi - 1].stop then [Intv(key.stop, data[hi - 1].stop)] else []
  }

  function Subtracted(data: seq<Intv>, key: Intv, lo: nat, hi: nat): seq<Intv>
    requires lo < hi <= |data|
  {
    data[..lo] + (LeftPiece(data, key, lo) + RightPiece(data, key, lo, hi)) + data[hi..]
  }

  lemma SubtractedMeaning(data: seq<Intv>, key: Intv, lo: nat, hi: nat)
    requires Disjoint(data) && key.start <= key.stop && IsRun(data, key, lo, hi) && lo < hi
    ensures Disjoint(Subtracted(data, key, lo, hi))
    ensures forall p :: Covers(Subtracted(data, key, lo, hi), p)
                   <==> Covers(data, p) && !key.Has(p) && !RightOfInside(data, key, p)
  {
    SubtractedDisjoint(data, key, lo, hi);
    var l, r := LeftPiece(data, key, lo), RightPiece(data, key, lo, hi);
    CoversAppend(l, r);
    CoversAppend(data[..lo], l + r);
    CoversAppend(data[..lo] + (l + r), data[hi..]);
    CoversRun(data, lo, hi);
    forall p
      ensures Covers(l, p) || Covers(r, p) <==> Covers(data[lo..hi], p) && !key.Has(p) && !RightOfInside(data, key, p)
      ensures Covers(data[..lo], p) || Covers(data[hi..], p) ==> !key.Has(p) && !RightOfInside(data, key, p)
    {
      RunPoint(data, key, lo, hi, p);
      OutsidePoint(data, key, lo, hi, p);
    }
  }

  lemma CoversRun(data: seq<Intv>, lo: nat, hi: nat)
    requires lo <= hi <= |data|
    ensures forall p :: Covers(data, p) <==> Covers(data[..lo], p) || Covers(data[lo..hi], p) || Covers(data[hi..], p)
  {
    assert data == data[..lo] + data[lo..hi] + data[hi..];
    CoversAppend(data[..lo], data[lo..hi]);
    CoversAppend(data[..lo] + data[lo..hi], data[hi..]);
  }

  lemma SubtractedDisjoint(data: seq<Intv>, key: Intv, lo: nat, hi: nat)
    requires Disjoint(data) && key.start <= key.stop && IsRun(data, key, lo, hi) && lo < hi
    ensures Disjoint(Subtracted(data, key, lo, hi))
  {
    var l, r := LeftPiece(data, key, lo), RightPiece(data, key, lo, hi);
    assert data[lo].Nonempty() && data[hi - 1].Nonempty() && Overlap(data[lo], key) && Overlap(data[hi - 1], key);
    if lo < hi - 1 {
      assert Less(data[lo], data[hi - 1]);
    }
    DisjointAppend(l, r, key.start);
    forall i | 0 <= i < |l + r|
      ensures data[lo].start <= (l + r)[i].start && (l + r)[i].stop <= data[hi - 1].stop
    {
    }
    DisjointSlices(data, lo, hi);
    DisjointAppend(data[..lo], l + r, data[lo].start);
    DisjointAppend(data[..lo] + (l + r), data[hi..], data[hi - 1].stop);
  }

  /** Two disjoint vectors on either side of a point. */
  lemma DisjointAppend(a: seq<Intv>, b: seq<Intv>, cut: int)
    requires Disjoint(a) && Disjoint(b)
    requires forall i :: 0 <= i < |a| ==> a[i].stop <= cut
    requires forall i :: 0 <= i < |b| ==> cut <= b[i].start
    ensures Disjoint(a + b)
  {
  }

  lemma DisjointSlices(data: seq<Intv>, lo: nat, hi: nat)
    requires Disjoint(data) && lo < hi <= |data|
    ensures Disjoint(data[..lo]) && Disjoint(data[hi..])
    ensures forall i :: 0 <= i < |data[..lo]| ==> data[..lo][i].stop <= data[lo].start
    ensures forall i :: 0 <= i < |data[hi..]| ==> data[hi - 1].stop <= data[hi..][i].start
  {
    forall i | 0 <= i < |data[hi..]|
      ensures data[hi - 1].stop <= data[hi..][i].start
    {
      assert Less(data[hi - 1], data[hi + i]);
    }
    assert forall i :: 0 <= i < lo ==> Less(data[i], data[lo]);
  }

  lemma RunPoint(data: seq<Intv>, key: Intv, lo: nat, hi: nat, p: int)
    requires Disjoint(data) && key.start <= key.stop && IsRun(data, key, lo, hi) && lo < hi
    ensures Covers(LeftPiece(data, key, lo), p) || Covers(RightPiece(data, key, lo, hi), p)
       <==> Covers(data[lo..hi], p) && !key.Has(p) && !RightOfInside(data, key, p)
  {
    var l, r := LeftPiece(data, key, lo), RightPiece(data, key, lo, hi);
    assert Overlap(data[lo], key) && Overlap(data[hi - 1], key);
    InsideIsAlone(data, key, lo, hi);
    if Covers(l, p) {
      assert data[lo..hi][0].Has(p);
    }
    if Covers(r, p) {
      assert data[lo..hi][hi - 1 - lo].Has(p);
    }
    if i :| 0 <= i < |data[lo..hi]| && data[lo..hi][i].Has(p) && !key.Has(p) && !RightOfInside(data, key, p) {
      assert data[lo + i].Has(p);
      assert 0 < i ==> Less(data[lo], data[lo + i]);
      if p < key.start {
        assert l[0].Has(p);
      } else {
        assert data[hi - 1].stop > key.start;
        assert data[hi - 1].Has(p);
        assert !StrictlyInside(data[hi - 1], key);
        assert r[0].Has(p);
      }
    }
  }

  /** An interval with the key strictly inside is the only one the key overlaps. */
  lemma InsideIsAlone(data: seq<Intv>, key: Intv, lo: nat, hi: nat)
    requires Disjoint(data) && key.start <= key.stop && IsRun(data, key, lo, hi)
    ensures forall i :: 0 <= i < |data| && StrictlyInside(data[i], key) ==> i == lo == hi - 1
  {
    forall i | 0 <= i < |data| && StrictlyInside(data[i], key)
      ensures i == lo == hi - 1
    {
      assert Overlap(data[i], key);
      assert Overlap(data[lo], key) && Overlap(data[hi - 1], key);
    }
  }

  /** A point lies in at most one interval. */
  lemma OneOwner(data: seq<Intv>, p: int)
    requires Disjoint(data)
    ensures forall i, j :: 0 <= i < |data| && 0 <= j < |data| && data[i].Has(p) && data[j].Has(p) ==> i == j
  {
    forall i, j | 0 <= i < |data| && 0 <= j < |data| && data[i].Has(p) && data[j].Has(p)
      ensures i == j
    {
      assert !Less(data[i], data[j]) && !Less(data[j], data[i]);
    }
  }

  lemma OutsidePoint(data: seq<Intv>, key: Intv, lo: nat, hi: nat, p: int)
    requires Disjoint(data) && key.start <= key.stop && IsRun(data, key, lo, hi)
    ensures Covers(data[..lo], p) || Covers(data[hi..], p) ==> !key.Has(p) && !RightOfInside(data, key, p)
  {
    OneOwner(data, p);
    InsideIsAlone(data, key, lo, hi);
    assert forall j :: 0 <= j < |data| && StrictlyInside(data[j], key) && key.stop <= p < data[j].stop ==> data[j].Has(p);
    assert forall i :: 0 <= i < lo ==> data[..lo][i] == data[i];
    assert forall i :: 0 <= i < |data[hi..]| ==> data[hi..][i] == data[hi + i];
  }

  // ---------------------------------------------------------------------------------------------
  // Intersection and complement

  /** intersect_helper: the pieces that `intv` shares with data[first..], and the new `first`. */
  method IntersectHelper(ans: seq<Intv>, intv: Intv, data: seq<Intv>, first: nat) returns (ans': seq<Intv>, first': nat)
    requires Disjoint(ans) && Disjoint(data) && intv.Nonempty() && first <= |data|
    requires forall p, q :: Covers(ans, p) && intv.Has(q) && Covers(data[first..], q) ==> p < q
    ensures first <= first' <= |data|
    ensures Disjoint(ans')
    ensures forall p :: Covers(ans', p) <==> Covers(ans, p) || (intv.Has(p) && Covers(data[first..], p))
    ensures forall q :: q >= intv.stop ==> (Covers(data[first'..], q) <==> Covers(data[first..], q))
  {
    var tail := data[first..];
    DisjointDrop(data, first);
    var lo, hi := EqualRange(tail, intv);
    first' := first + (if lo == hi then lo else hi - 1);
    SkipIsSafe(data, first, intv, lo, hi);
    ans' := ans;
    var k := lo;
    while k < hi
      invariant lo <= k <= hi && Disjoint(ans')
      invariant forall p :: Covers(ans', p) <==> Covers(ans, p) || (intv.Has(p) && Covers(tail[lo..k], p))
    {
      var start := if intv.start >= tail[k].start then intv.start else tail[k].start;
      var stop := if intv.stop <= tail[k].stop then intv.stop else tail[k].stop;
      var piece := Intv(start, stop);
      assert Overlap(tail[k], intv) && tail[k].Nonempty();
      PieceAfter(ans, ans', intv, tail, lo, k, piece);
      PushCovers(ans', piece);
      PushCovers(tail[lo..k], tail[k]);
      assert tail[lo..k + 1] == tail[lo..k] + [tail[k]];
      if start < stop {
        // push_back throws if the piece comes before the last one; PieceAfter rules that out
        ans' := ans' + [piece];
      }
      k := k + 1;
    }
    RunIsAll(tail, intv, lo, hi);
  }

  lemma DisjointDrop(data: seq<Intv>, first: nat)
    requires Disjoint(data) && first <= |data|
    ensures Disjoint(data[first..])
  {
    assert forall i :: 0 <= i < |data[first..]| ==> data[first..][i] == data[first + i];
  }

  lemma SkipIsSafe(data: seq<Intv>, first: nat, intv: Intv, lo: nat, hi: nat)
    requires Disjoint(data) && intv.Nonempty() && first <= |data| && Disjoint(data[first..]) && IsRun(data[first..], intv, lo, hi)
    ensures var f := first + (if lo == hi then lo else hi - 1);
      forall q :: q >= intv.stop ==> (Covers(data[f..], q) <==> Covers(data[first..], q))
  {
    var f := first + (if lo == hi then lo else hi - 1);
    var tail := data[first..];
    forall i | 0 <= i < f - first
      ensures tail[i].stop <= intv.stop
    {
      if lo <= i {
        assert Less(tail[i], tail[hi - 1]) && Overlap(tail[hi - 1], intv);
      } else {
        assert Less(tail[i], intv);
      }
    }
    forall q | q >= intv.stop
      ensures Covers(data[f..], q) <==> Covers(tail, q)
    {
      if i :| 0 <= i < |data[f..]| && data[f..][i].Has(q) {
        assert tail[f - first + i].Has(q);
      }
      if i :| 0 <= i < |tail| && tail[i].Has(q) {
        assert data[f..][i - (f - first)].Has(q);
      }
    }
  }

  lemma PushCovers(a: seq<Intv>, x: Intv)
    ensures forall p :: Covers(a + [x], p) <==> Covers(a, p) || x.Has(p)
  {
    CoversAppend(a, [x]);
    assert forall p :: Covers([x], p) <==> [x][0].Has(p);
  }

  /** The next piece comes after everything collected so far. */
  lemma PieceAfter(ans: seq<Intv>, ans': seq<Intv>, intv: Intv, tail: seq<Intv>, lo: nat, k: nat, piece: Intv)
    requires Disjoint(ans') && Disjoint(tail) && lo <= k < |tail|
    requires forall p, q :: Covers(ans, p) && intv.Has(q) && Covers(tail, q) ==> p < q
    requires forall p :: Covers(ans', p) <==> Covers(ans, p) || (intv.Has(p) && Covers(tail[lo..k], p))
    requires piece.Nonempty() && intv.start <= piece.start && piece.stop <= intv.stop
    requires tail[k].start <= piece.start && piece.stop <= tail[k].stop
    ensures Disjoint(ans' + [piece])
    ensures ans' == [] || !Less(piece, ans'[|ans'| - 1])
  {
    forall i | 0 <= i < |ans'|
      ensures Less(ans'[i], piece)
    {
      var p, q := ans'[i].stop - 1, piece.start;
      assert ans'[i].Nonempty() && ans'[i].Has(p);
      assert Covers(ans', p);
      assert tail[k].Has(q) && intv.Has(q);
      if Covers(ans, p) {
        assert Covers(tail, q);
      } else {
        var j :| 0 <= j < |tail[lo..k]| && tail[lo..k][j].Has(p);
        assert Less(tail[lo + j], tail[k]);
      }
    }
  }

  lemma RunIsAll(tail: seq<Intv>, intv: Intv, lo: nat, hi: nat)
    requires IsRun(tail, intv, lo, hi)
    ensures forall p :: intv.Has(p) ==> (Covers(tail[lo..hi], p) <==> Covers(tail, p))
  {
    CoversRun(tail, lo, hi);
    assert forall i :: 0 <= i < lo ==> tail[..lo][i] == tail[i];
    assert forall i :: 0 <= i < |tail[hi..]| ==> tail[hi..][i] == tail[hi + i];
  }

  /** The list with fewer intervals left drives; the roles may swap after every interval. */
  method GetIntersection(a: seq<Intv>, b: seq<Intv>) returns (ans: seq<Intv>)
    requires Disjoint(a) && Disjoint(b)
    ensures Disjoint(ans)
    ensures forall p :: Covers(ans, p) <==> Covers(a, p) && Covers(b, p)
  {
    var i1, i2 := 0, 0;
    ans := [];
    assert a[0..] == a && b[0..] == b;
    while |a| - i1 > 0 && |b| - i2 > 0
      invariant 0 <= i1 <= |a| && 0 <= i2 <= |b| && Disjoint(ans)
      invariant forall p :: Covers(a, p) && Covers(b, p) <==> Covers(ans, p) || (Covers(a[i1..], p) && Covers(b[i2..], p))
      invariant forall p, q :: Covers(ans, p) && Covers(a[i1..], q) && Covers(b[i2..], q) ==> p < q
      decreases |a| - i1 + |b| - i2
    {
      if |a| - i1 <= |b| - i2 {
        ans, i1, i2 := IntersectStep(ans, a, i1, b, i2);
      } else {
        ans, i2, i1 := IntersectStep(ans, b, i2, a, i1);
      }
    }
  }

  /** One round: interval `i` of the driving list against the rest of the other. */
  method IntersectStep(ans: seq<Intv>, a: seq<Intv>, i: nat, b: seq<Intv>, j: nat) returns (ans': seq<Intv>, i': nat, j': nat)
    requires Disjoint(ans) && Disjoint(a) && Disjoint(b) && i < |a| && j <= |b|
    requires forall p, q :: Covers(ans, p) && Covers(a[i..], q) && Covers(b[j..], q) ==> p < q
    ensures i' == i + 1 && j <= j' <= |b| && Disjoint(ans')
    ensures forall p ::
      Covers(ans, p) || (Covers(a[i..], p) && Covers(b[j..], p)) <==> Covers(ans', p) || (Covers(a[i'..], p) && Covers(b[j'..], p))
    ensures forall p, q :: Covers(ans', p) && Covers(a[i'..], q) && Covers(b[j'..], q) ==> p < q
  {
    SplitFirst(a, i, a[i + 1..]);
    assert a[i].Nonempty();
    ans', j' := IntersectHelper(ans, a[i], b, j);
    i' := i + 1;
  }

  lemma SplitFirst(a: seq<Intv>, i: nat, rest: seq<Intv>)
    requires Disjoint(a) && i < |a| && rest == a[i + 1..]
    ensures forall p :: Covers(a[i..], p) <==> a[i].Has(p) || Covers(rest, p)
    ensures forall p :: Covers(rest, p) ==> p >= a[i].stop
  {
    assert a[i..] == [a[i]] + rest;
    CoversAppend([a[i]], rest);
    assert forall p :: Covers([a[i]], p) <==> [a[i]][0].Has(p);
    forall p | Covers(rest, p)
      ensures p >= a[i].stop
    {
      var k :| 0 <= k < |rest| && rest[k].Has(p);
      assert Less(a[i], a[i + 1 + k]);
    }
  }

  /** Complement within [lower, upper); an error when the stored intervals stick out of it.  Besides disjoint
      vectors it may meet its own answer for the empty list within an empty bound. */
  method GetComplement(data: seq<Intv>, key: Intv) returns (r: Result<seq<Intv>>)
    requires Disjoint(data) || data == [key]
    ensures r.Err? <==> data != [] && (data[0].start < key.start || key.stop < data[|data| - 1].stop)
    ensures r.Ok? ==> (Disjoint(r.value) <==> data != [] || key.Nonempty())
    ensures data == [] ==> r == Ok([key])
    ensures r.Ok? ==> forall p :: Covers(r.value, p) <==> key.Has(p) && !Covers(data, p)
    ensures r.Ok? ==> forall i :: 0 <= i < |r.value| ==> key.start <= r.value[i].start && r.value[i].stop <= key.stop
  {
    var lower, upper := key.start, key.stop;
    var ans := [];
    if data == [] {
      PushCovers(ans, key);
      assert Intv(lower, upper) == key;
      ans := ans + [Intv(lower, upper)];
      assert ans == [key] && ans[0] == key;
      return Ok(ans);
    }
    if data[0].start < lower || upper < data[|data| - 1].stop {
      return Err;
    }
    ans, lower := Gaps(data, key);
    PushCovers(ans, Intv(lower, upper));
    if lower < upper {
      ans := ans + [Intv(lower, upper)];
    }
    return Ok(ans);
  }

  /** The loop of get_complement: the gaps in front of the stored intervals, and where the last one ends. */
  method Gaps(data: seq<Intv>, key: Intv) returns (ans: seq<Intv>, lower: int)
    requires data != [] && key.start <= data[0].start && data[|data| - 1].stop <= key.stop
    requires Disjoint(data) || data == [key]
    ensures Disjoint(ans) && lower <= key.stop && (key.start <= lower || lower == key.stop)
    ensures forall i :: 0 <= i < |ans| ==> key.start <= ans[i].start && ans[i].stop <= lower
    ensures forall p :: Covers(ans, p) || lower <= p < key.stop <==> key.Has(p) && !Covers(data, p)
  {
    lower := key.start;
    ans := [];
    assert data[..0] == [];
    for k := 0 to |data|
      invariant Disjoint(ans) && (k > 0 ==> lower == data[k - 1].stop) && (k == 0 ==> lower == key.start)
      invariant Disjoint(data) ==> key.start <= lower <= key.stop
      invariant forall i :: 0 <= i < |ans| ==> key.start <= ans[i].start && ans[i].stop <= lower
      invariant Disjoint(data) ==> forall p :: Covers(ans, p) <==> key.start <= p < lower && !Covers(data[..k], p)
      invariant !Disjoint(data) ==> ans == []
    {
      if Disjoint(data) {
        NextGap(ans, data, key, k, lower);
      }
      if lower < data[k].start {
        ans := ans + [Intv(lower, data[k].start)];
      }
      lower := data[k].stop;
    }
    assert data[..|data|] == data;
    if Disjoint(data) {
      CoveredBelow(data, |data|);
    } else {
      assert forall p :: Covers(data, p) <==> data[0].Has(p);
    }
  }

  lemma NextGap(ans: seq<Intv>, data: seq<Intv>, key: Intv, k: nat, lower: int)
    requires Disjoint(ans) && Disjoint(data) && k < |data| && key.start <= lower
    requires key.start <= data[0].start && data[|data| - 1].stop <= key.stop
    requires lower == if k > 0 then data[k - 1].stop else key.start
    requires forall i :: 0 <= i < |ans| ==> key.start <= ans[i].start && ans[i].stop <= lower
    requires forall p :: Covers(ans, p) <==> key.start <= p < lower && !Covers(data[..k], p)
    ensures lower <= data[k].start < data[k].stop <= key.stop
    ensures var gap := Intv(lower, data[k].start);
      var ans' := if gap.Nonempty() then ans + [gap] else ans;
      Disjoint(ans') && forall p :: Covers(ans', p) <==> key.start <= p < data[k].stop && !Covers(data[..k + 1], p)
  {
    var gap := Intv(lower, data[k].start);
    assert data[k].Nonempty();
    assert k > 0 ==> Less(data[k - 1], data[k]);
    assert k < |data| - 1 ==> Less(data[k], data[|data| - 1]) && data[|data| - 1].Nonempty();
    assert data[..k + 1] == data[..k] + [data[k]];
    PushCovers(data[..k], data[k]);
    CoveredBelow(data, k);
    PushCovers(ans, gap);
  }

  lemma CoveredBelow(data: seq<Intv>, k: nat)
    requires Disjoint(data) && k <= |data|
    ensures forall p :: Covers(data[..k], p) ==> k > 0 && p < data[k - 1].stop
  {
    forall p | Covers(data[..k], p)
      ensures k > 0 && p < data[k - 1].stop
    {
      var i :| 0 <= i < |data[..k]| && data[..k][i].Has(p);
      if i < k - 1 {
        assert Less(data[i], data[k - 1]) && data[k - 1].Nonempty();
      }
    }
  }

  /** Complementing twice within the same bounds gives back the point set. */
  method ComplementTwice(data: seq<Intv>, key: Intv) returns (r: Result<seq<Intv>>)
    requires Disjoint(data)
    ensures r.Err? <==> data != [] && (data[0].start < key.start || key.stop < data[|data| - 1].stop)
    ensures r.Ok? ==> Disjoint(r.value) && forall p :: Covers(r.value, p) <==> Covers(data, p)
  {
    var once := GetComplement(data, key);
    if once.Err? {
      return Err;
    }
    if data != [] {
      assert data[0].Nonempty() && (|data| > 1 ==> Less(data[0], data[|data| - 1]));
    }
    r := GetComplement(once.value, key);
    if r.Ok? {
      WithinBounds(data, key);
    }
  }

  /** The complement of the empty list within the empty bound [0, 0) is not a disjoint vector. */
  method EmptyComplement() returns (ans: seq<Intv>)
    ensures ans == [Intv(0, 0)] && !Disjoint(ans)
  {
    var r := GetComplement([], Intv(0, 0));
    ans := r.value;
    assert !ans[0].Nonempty();
  }

  lemma WithinBounds(data: seq<Intv>, key: Intv)
    requires Disjoint(data) && (data == [] || (key.start <= data[0].start && data[|data| - 1].stop <= key.stop))
    ensures forall p :: Covers(data, p) ==> key.Has(p)
  {
    forall p | Covers(data, p)
      ensures key.Has(p)
    {
      var i :| 0 <= i < |data| && data[i].Has(p);
      assert 0 < i ==> Less(data[0], data[i]) && data[0].Nonempty();
      assert i < |data| - 1 ==> Less(data[i], data[|data| - 1]) && data[|data| - 1].Nonempty();
    }
  }
}
