/** Net names: index ranges, name units, repeated names and name lists, and the list of bits
    each of them stands for (ast.h, ast.cpp and the bit enumeration of spirit/util.h). */
module NameAst {
  import opened Arithmetic
  import opened Counts
  import opened Sequences

  /** Indices at a regular interval.  A step of 0 is the empty range (a scalar name); the stop is
      inclusive and the range runs downwards when the stop is below the start. */
  datatype Range = Range(start: cnt, stop: cnt, step: cnt) {

    function Span(): cnt {
      if stop >= start then stop - start else start - stop
    }

    /** The size as the C++ computes it, in 64-bit arithmetic. */
    function Size(): cnt {
      if step == 0 then 0
      else Quotient(Wrap(Span() + step), step)
    }

    /** Indexing as the C++ computes it: no bounds check, wraps modulo 2^64 in both directions. */
    function At(i: cnt): cnt {
      Wrap(if stop >= start then start + Times(i, step) else start - Times(i, step))
    }

    /** No wrap-around inside `Size`.  Every range the grammar accepts has it. */
    predicate Fits() {
      Span() + step < 0x1_0000_0000_0000_0000
    }

    function StopInclude(): cnt
      requires Size() > 0
    {
      At(Size() - 1)
    }

    function StopExclude(): cnt {
      At(Size())
    }

    /** Half-open hull of the indices; equal ends for a scalar. */
    function Bounds(): (cnt, cnt) {
      if step == 0 || Size() == 0 then (0, 0)
      else if stop >= start then (start, Wrap(StopInclude() + 1))
      else (StopInclude(), Wrap(start + 1))
    }
  }

  datatype NameUnit = NameUnit(base: string, idxRange: Range) {
    predicate IsVector() {
      idxRange.step != 0
    }

    function Size(): cnt {
      if idxRange.Size() > 1 then idxRange.Size() else 1
    }
  }

  datatype Name = Name(repList: seq<NameRep>)

  datatype NameRep = NameRep(mult: cnt, data: Data)

  datatype Data = Unit(nu: NameUnit) | Group(na: Name)

  // ---------------------------------------------------------------------------------------------
  // Arithmetic of ranges

  lemma RangeSize(r: Range)
    requires r.step > 0 && r.Fits()
    ensures r.Size() >= 1
    ensures Times(r.Size() - 1, r.step) <= r.Span() < Times(r.Size(), r.step) < TWO64
  {
    QuotientBracket(r.Span() + r.step, r.step);
  }

  /** Inside the range nothing wraps: indexing is plain arithmetic and stays between start and stop. */
  lemma AtExact(r: Range, i: cnt)
    requires r.step > 0 && r.Fits() && i < r.Size()
    ensures Times(i, r.step) <= r.Span()
    ensures r.At(i) == if r.stop >= r.start then r.start + Times(i, r.step) else r.start - Times(i, r.step)
  {
    RangeSize(r);
    TimesMono(i, r.Size() - 1, r.step);
  }

  /** The exclusive stop differs from every index before it, even when it wraps below zero. */
  lemma StopExcludeIsFresh(r: Range, i: cnt)
    requires r.step > 0 && r.Fits() && i < r.Size()
    ensures r.At(i) != r.StopExclude()
  {
    RangeSize(r);
    AtExact(r, i);
    TimesMono(i + 1, r.Size(), r.step);
  }

  /** `Bounds` is the exact half-open hull: every index lies inside and both ends are attained. */
  lemma BoundsAreHull(r: Range)
    requires r.step > 0 && r.Fits() && r.start < TWO64 - 1 && r.stop < TWO64 - 1
    ensures forall i: cnt :: i < r.Size() ==> r.Bounds().0 <= r.At(i) < r.Bounds().1
    ensures exists i: cnt :: i < r.Size() && r.At(i) == r.Bounds().0
    ensures exists i: cnt :: i < r.Size() && r.At(i) == r.Bounds().1 - 1
  {
    RangeSize(r);
    var last: cnt := r.Size() - 1;
    InsideEnds(r, 0);
    InsideEnds(r, last);
    forall i: cnt | i < r.Size()
      ensures r.Bounds().0 <= r.At(i) < r.Bounds().1
    {
      InsideEnds(r, i);
    }
  }

  lemma InsideEnds(r: Range, i: cnt)
    requires r.step > 0 && r.Fits() && i < r.Size()
    ensures r.At(0) == r.start
    ensures r.stop >= r.start ==> r.start <= r.At(i) <= r.At(r.Size() - 1) <= r.stop
    ensures r.stop < r.start ==> r.stop <= r.At(r.Size() - 1) <= r.At(i) <= r.start
  {
    AtExact(r, 0);
    AtExact(r, i);
    AtExact(r, r.Size() - 1);
    TimesMono(i, r.Size() - 1, r.step);
  }

  /** Rebuilding a range from entry `a` with a stop that still reaches entry `b - 1` but not entry
      `b` keeps exactly the entries a..b. */
  lemma SubRange(r: Range, a: cnt, b: cnt, s: Range)
    requires r.step > 0 && r.Fits() && a < b <= r.Size()
    requires s == Range(r.At(a), r.At(b - 1), r.step) || (b == r.Size() && s == Range(r.At(a), r.stop, r.step))
    ensures s.Fits() && s.Size() == b - a
    ensures forall i: cnt :: i < b - a ==> s.At(i) == r.At(a + i)
  {
    SubRangeSize(r, a, b, s);
    forall i: cnt | i < b - a
      ensures s.At(i) == r.At(a + i)
    {
      AtExact(s, i);
      AtExact(r, a + i);
      AtExact(r, a);
      TimesAdd(a, i, r.step);
    }
  }

  lemma SubRangeSize(r: Range, a: cnt, b: cnt, s: Range)
    requires r.step > 0 && r.Fits() && a < b <= r.Size()
    requires s == Range(r.At(a), r.At(b - 1), r.step) || (b == r.Size() && s == Range(r.At(a), r.stop, r.step))
    ensures s.Fits() && s.Size() == b - a
    ensures b - a > 1 ==> (s.stop >= s.start <==> r.stop >= r.start)
  {
    SubRangeSpan(r, a, b, s);
    QuotientUnique(s.Span() + r.step, r.step, b - a);
  }

  lemma SubRangeSpan(r: Range, a: cnt, b: cnt, s: Range)
    requires r.step > 0 && r.Fits() && a < b <= r.Size()
    requires s == Range(r.At(a), r.At(b - 1), r.step) || (b == r.Size() && s == Range(r.At(a), r.stop, r.step))
    ensures s.Span() <= r.Span()
    ensures Times(b - 1 - a, r.step) <= s.Span() < Times(b - 1 - a, r.step) + r.step
    ensures b - a > 1 ==> (s.stop >= s.start <==> r.stop >= r.start)
  {
    EntryGap(r, a, b - 1);
    if s.stop != r.At(b - 1) {
      LastGap(r);
    }
  }

  /** The stop is less than a step beyond the last entry. */
  lemma LastGap(r: Range)
    requires r.step > 0 && r.Fits()
    ensures r.Size() >= 1
    ensures r.stop >= r.start ==> r.At(r.Size() - 1) <= r.stop < r.At(r.Size() - 1) + r.step
    ensures r.stop < r.start ==> r.At(r.Size() - 1) - r.step < r.stop <= r.At(r.Size() - 1)
  {
    RangeSize(r);
    AtExact(r, r.Size() - 1);
  }

  /** Distance between two entries. */
  lemma EntryGap(r: Range, a: cnt, b: cnt)
    requires r.step > 0 && r.Fits() && a <= b < r.Size()
    ensures Times(a, r.step) + Times(b - a, r.step) == Times(b, r.step) <= r.Span()
    ensures r.At(a) == if r.stop >= r.start then r.start + Times(a, r.step) else r.start - Times(a, r.step)
    ensures r.At(b) == if r.stop >= r.start then r.start + Times(b, r.step) else r.start - Times(b, r.step)
    ensures a < b ==> Times(b - a, r.step) >= r.step
  {
    TimesAdd(b - a, a, r.step);
    if a < b {
      TimesMono(1, b - a, r.step);
    }
    AtExact(r, a);
    AtExact(r, b);
  }

  // ---------------------------------------------------------------------------------------------
  // The bits of a name

  datatype Bit = Scalar(base: string) | Indexed(base: string, idx: nat)

  function UnitBits(nu: NameUnit): (bits: seq<Bit>)
    ensures nu.IsVector() ==> |bits| == nu.idxRange.Size()
    ensures !nu.IsVector() ==> bits == [Scalar(nu.base)]
  {
    if nu.IsVector() then seq(nu.idxRange.Size(), i requires 0 <= i < nu.idxRange.Size() => Indexed(nu.base, nu.idxRange.At(i)))
    else [Scalar(nu.base)]
  }

  function DataBits(d: Data): seq<Bit> {
    match d
    case Unit(nu) => UnitBits(nu)
    case Group(na) => ListBits(na.repList)
  }

  function RepBits(nr: NameRep): seq<Bit> {
    Repeat(DataBits(nr.data), nr.mult)
  }

  function ListBits(reps: seq<NameRep>): seq<Bit> {
    if reps == [] then [] else RepBits(reps[0]) + ListBits(reps[1..])
  }

  function NameBits(na: Name): seq<Bit> {
    ListBits(na.repList)
  }

  lemma {:induction false} ListBitsAppend(a: seq<NameRep>, b: seq<NameRep>)
    ensures ListBits(a + b) == ListBits(a) + ListBits(b)
  {
    if a == [] {
      assert a + b == b;
    } else {
      assert (a + b)[1..] == a[1..] + b;
      ListBitsAppend(a[1..], b);
    }
  }

  lemma ListBitsSnoc(a: seq<NameRep>, nr: NameRep)
    ensures ListBits(a + [nr]) == ListBits(a) + RepBits(nr)
  {
    ListBitsAppend(a, [nr]);
    assert [nr][1..] == [];
    assert ListBits([nr]) == RepBits(nr);
  }

  /** Bits of the unit that holds entries a..b of a vector unit. */
  lemma SubUnitBits(nu: NameUnit, a: cnt, b: cnt, s: Range)
    requires nu.IsVector() && nu.idxRange.Fits() && a < b <= nu.idxRange.Size()
    requires var r := nu.idxRange;
      s == Range(r.At(a), r.At(b - 1), r.step) || (b == r.Size() && s == Range(r.At(a), r.stop, r.step))
    ensures UnitBits(NameUnit(nu.base, s)) == UnitBits(nu)[a..b]
  {
    SubRange(nu.idxRange, a, b, s);
  }

  // ---------------------------------------------------------------------------------------------
  // Well-formed names: exactly what the grammar produces

  predicate IsAlpha(c: char) {
    'a' <= c <= 'z' || 'A' <= c <= 'Z'
  }

  /** Printable ASCII other than the punctuation of the grammar. */
  predicate IsNameChar(c: char) {
    ' ' < c <= '~' && c !in "()<>:*,"
  }

  predicate GoodBase(s: string) {
    |s| > 0 && IsAlpha(s[0]) && forall i :: 0 <= i < |s| ==> IsNameChar(s[i])
  }

  predicate WfUnit(nu: NameUnit) {
    && GoodBase(nu.base)
    && nu.idxRange.start < TWO32 && nu.idxRange.stop < TWO32 && nu.idxRange.step < TWO32
  }

  predicate WfData(d: Data) {
    match d
    case Unit(nu) => WfUnit(nu)
    case Group(na) => WfList(na.repList) && na.repList != []
  }

  predicate WfRep(nr: NameRep) {
    1 <= nr.mult < TWO32 && WfData(nr.data)
  }

  predicate WfList(reps: seq<NameRep>) {
    forall i :: 0 <= i < |reps| ==> WfRep(reps[i])
  }

  predicate WfName(na: Name) {
    na.repList != [] && WfList(na.repList)
  }

  // ---------------------------------------------------------------------------------------------
  // Names that Verilog can express

  /** Characters of a simple identifier. */
  predicate IsIdChar(c: char) {
    IsAlpha(c) || '0' <= c <= '9' || c == '_' || c == '$'
  }

  predicate IsIdentifier(s: string) {
    s != [] && IsAlpha(s[0]) && forall i :: 0 <= i < |s| ==> IsIdChar(s[i])
  }

  /** The Verilog text of this list carries its own braces and is a plain concatenation. */
  predicate Bracketed(reps: seq<NameRep>) {
    || |reps| >= 2
    || (|reps| == 1 && BracketedRep(reps[0]))
  }

  predicate BracketedRep(nr: NameRep) {
    nr.mult == 1 &&
    match nr.data
    case Unit(nu) => nu.IsVector() && nu.idxRange.Size() > 1 && nu.idxRange.step > 1
    case Group(na) => Bracketed(na.repList)
  }

  /** Base names are identifiers, and every group under a multiplier above 1 is bracketed. */
  predicate VerilogOkData(d: Data) {
    match d
    case Unit(nu) => IsIdentifier(nu.base)
    case Group(na) => VerilogOkList(na.repList)
  }

  predicate VerilogOkRep(nr: NameRep) {
    VerilogOkData(nr.data) && (nr.mult > 1 && nr.data.Group? ==> Bracketed(nr.data.na.repList))
  }

  predicate VerilogOkList(reps: seq<NameRep>) {
    forall i :: 0 <= i < |reps| ==> VerilogOkRep(reps[i])
  }

  lemma WfUnitFits(nu: NameUnit)
    requires WfUnit(nu)
    ensures nu.idxRange.Fits() && |UnitBits(nu)| == nu.Size() >= 1
  {
    if nu.IsVector() {
      RangeSize(nu.idxRange);
    }
  }

  lemma {:induction false} WfDataHasBits(d: Data)
    requires WfData(d)
    ensures |DataBits(d)| >= 1
    decreases d
  {
    match d
    case Unit(nu) => WfUnitFits(nu);
    case Group(na) =>
      var nr := na.repList[0];
      assert WfRep(nr);
      WfDataHasBits(nr.data);
      RepeatLength(DataBits(nr.data), nr.mult);
      TimesMono(1, nr.mult, |DataBits(nr.data)|);
      assert |RepBits(nr)| >= 1;
      assert ListBits(na.repList) == RepBits(nr) + ListBits(na.repList[1..]);
  }

  // ---------------------------------------------------------------------------------------------
  // The code that walks a name

  /** Range iterator: compares for equality with the end, never for order. */
  class RangeIterator {
    var val: cnt
    const step: cnt
    const up: bool

    constructor (val: cnt, step: cnt, up: bool)
      ensures this.val == val && this.step == step && this.up == up
    {
      this.val, this.step, this.up := val, step, up;
    }

    method Increment()
      modifies this
      ensures val == Wrap(if up then old(val) + step else old(val) - step)
    {
      if up {
        val := Wrap(val + step);
      } else {
        val := Wrap(val - step);
      }
    }
  }

  lemma NextAt(r: Range, i: cnt)
    requires i + 1 < TWO64
    ensures r.At(i + 1) == Wrap(if r.stop >= r.start then r.At(i) + r.step else r.At(i) - r.step)
  {
    if r.stop >= r.start {
      WrapAbsorb(r.start + Times(i, r.step), r.step);
    } else {
      WrapAbsorb(r.start - Times(i, r.step), -(r.step as int));
    }
  }

  /** The range-based for loop over an index range: it stops after exactly `Size()` steps. */
  method Indices(r: Range) returns (out: seq<cnt>)
    requires r.Fits()
    ensures |out| == r.Size()
    ensures forall i: cnt :: i < |out| ==> out[i] == r.At(i)
  {
    var iter := new RangeIterator(r.start, r.step, r.stop >= r.start);
    var end := r.StopExclude();
    out := [];
    if r.step > 0 {
      RangeSize(r);
    }
    while iter.val != end
      invariant |out| <= r.Size()
      invariant iter.val == r.At(|out|)
      invariant forall i: cnt :: i < |out| ==> out[i] == r.At(i)
      decreases r.Size() - |out|
    {
      assert |out| != r.Size();
      NextAt(r, |out|);
      out := out + [iter.val];
      iter.Increment();
    }
    if |out| < r.Size() {
      StopExcludeIsFresh(r, |out|);
    }
  }

  /** Sizes that 64 bits can hold, at every level of the tree. */
  predicate FitData(d: Data) {
    |DataBits(d)| < TWO64 &&
    match d
    case Unit(nu) => nu.idxRange.Fits()
    case Group(na) => FitList(na.repList)
  }

  predicate FitRep(nr: NameRep) {
    FitData(nr.data)
  }

  predicate FitList(reps: seq<NameRep>) {
    forall i :: 0 <= i < |reps| ==> FitRep(reps[i])
  }

  lemma TakeOneMore(reps: seq<NameRep>, i: nat)
    requires i < |reps|
    ensures ListBits(reps[..i + 1]) == ListBits(reps[..i]) + RepBits(reps[i])
  {
    assert reps[..i + 1] == reps[..i] + [reps[i]];
    ListBitsSnoc(reps[..i], reps[i]);
  }

  lemma PrefixBits(reps: seq<NameRep>, i: nat)
    requires i <= |reps|
    ensures ListBits(reps) == ListBits(reps[..i]) + ListBits(reps[i..])
  {
    assert reps == reps[..i] + reps[i..];
    ListBitsAppend(reps[..i], reps[i..]);
  }

  /** In a well-formed name no inner size exceeds the total. */
  lemma {:induction false} WfDataFits(d: Data)
    requires WfData(d) && |DataBits(d)| < TWO64
    ensures FitData(d)
    decreases d
  {
    match d
    case Unit(nu) => WfUnitFits(nu);
    case Group(na) =>
      forall i | 0 <= i < |na.repList|
        ensures FitRep(na.repList[i])
      {
        var nr := na.repList[i];
        assert WfRep(nr);
        TakeOneMore(na.repList, i);
        PrefixBits(na.repList, i + 1);
        RepeatLength(DataBits(nr.data), nr.mult);
        TimesMono(1, nr.mult, |DataBits(nr.data)|);
        WfDataFits(nr.data);
      }
  }

  /** Number of bits, by the accumulating loop of name::size. */
  method NameSize(na: Name) returns (tot: cnt)
    requires |NameBits(na)| < TWO64 && FitList(na.repList)
    ensures tot == |NameBits(na)|
    decreases na
  {
    tot := 0;
    for idx := 0 to |na.repList|
      invariant tot == |ListBits(na.repList[..idx])|
    {
      TakeOneMore(na.repList, idx);
      PrefixBits(na.repList, idx + 1);
      var n := RepSize(na.repList[idx]);
      tot := tot + n;
    }
    assert na.repList[..|na.repList|] == na.repList;
  }

  method RepSize(nr: NameRep) returns (n: cnt)
    requires |RepBits(nr)| < TWO64 && FitRep(nr)
    ensures n == |RepBits(nr)|
    decreases nr
  {
    var d := DataSize(nr.data);
    RepeatLength(DataBits(nr.data), nr.mult);
    n := Times(nr.mult, d);
  }

  method DataSize(d: Data) returns (n: cnt)
    requires FitData(d)
    ensures n == |DataBits(d)|
    decreases d
  {
    match d
    case Unit(nu) =>
      if nu.IsVector() {
        RangeSize(nu.idxRange);
      }
      n := nu.Size();
    case Group(na) => n := NameSize(na);
  }

  /** Bit enumeration: a multiplied name is expanded once into a cache which is then replayed. */
  method GetNameBits(na: Name) returns (out: seq<Bit>)
    requires |NameBits(na)| < TWO64 && FitList(na.repList)
    ensures out == NameBits(na)
    decreases na
  {
    out := [];
    for idx := 0 to |na.repList|
      invariant out == ListBits(na.repList[..idx])
    {
      TakeOneMore(na.repList, idx);
      PrefixBits(na.repList, idx + 1);
      var bits := GetRepBits(na.repList[idx]);
      out := out + bits;
    }
    assert na.repList[..|na.repList|] == na.repList;
  }

  method GetRepBits(nr: NameRep) returns (out: seq<Bit>)
    requires |RepBits(nr)| < TWO64 && FitRep(nr)
    ensures out == RepBits(nr)
    decreases nr
  {
    out := [];
    var n := RepSize(nr);
    if n == 0 {
      return;
    }
    var cache := GetDataBits(nr.data);
    if nr.mult == 1 {
      out := cache;
      RepeatOnce(cache);
    } else {
      for c: int := 0 to nr.mult
        invariant out == Repeat(cache, c)
      {
        RepeatAdd(cache, c, 1);
        RepeatOnce(cache);
        for k := 0 to |cache|
          invariant out == Repeat(cache, c) + cache[..k]
        {
          out := out + [cache[k]];
        }
      }
    }
  }

  method GetDataBits(d: Data) returns (out: seq<Bit>)
    requires FitData(d)
    ensures out == DataBits(d)
    decreases d
  {
    match d
    case Unit(nu) =>
      if nu.IsVector() {
        var idxs := Indices(nu.idxRange);
        out := seq(|idxs|, i requires 0 <= i < |idxs| => Indexed(nu.base, idxs[i]));
      } else {
        out := [Scalar(nu.base)];
      }
    case Group(na) => out := GetNameBits(na);
  }
}
