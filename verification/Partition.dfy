/** Cutting a name into equal chunks without expanding it (get_partition in spirit/util.h).

    Three mutually recursive helpers thread the pending name list `rep_list` and its bit count
    `cum_size`, and emit a finished name whenever the count reaches the chunk size.
 */
module Partition {
  import opened Arithmetic
  import opened Counts
  import opened Sequences
  import opened NameAst

  /** The bits of the names emitted so far followed by those of the pending list. */
  function StateBits(out: seq<Name>, reps: seq<NameRep>): seq<Bit> {
    if out == [] then ListBits(reps) else NameBits(out[0]) + StateBits(out[1..], reps)
  }

  function OutBits(out: seq<Name>): seq<Bit> {
    StateBits(out, [])
  }

  /** Appending what a helper emitted: if it turned the pending `reps` and the bits `x` into
      `out1` and `reps1`, the whole state has grown by `x`. */
  lemma {:induction false} StateExtend(out: seq<Name>, reps: seq<NameRep>, out1: seq<Name>, reps1: seq<NameRep>, x: seq<Bit>)
    requires StateBits(out1, reps1) == ListBits(reps) + x
    ensures StateBits(out + out1, reps1) == StateBits(out, reps) + x
  {
    if out == [] {
      assert out + out1 == out1;
    } else {
      assert (out + out1)[1..] == out[1..] + out1 && (out + out1)[0] == out[0];
      StateExtend(out[1..], reps, out1, reps1, x);
      Reassociate(NameBits(out[0]), StateBits(out[1..], reps), x);
    }
  }

  lemma Reassociate<T>(a: seq<T>, b: seq<T>, c: seq<T>)
    ensures a + (b + c) == a + b + c
  {
  }

  lemma StatePush(out: seq<Name>, reps: seq<NameRep>, nr: NameRep)
    ensures StateBits(out, reps + [nr]) == StateBits(out, reps) + RepBits(nr)
  {
    ListBitsSnoc(reps, nr);
    StateExtend(out, reps, [], reps + [nr], RepBits(nr));
    assert out + [] == out;
  }

  /** Emitting the pending list leaves the bits as they are. */
  lemma StateEmit(out: seq<Name>, reps: seq<NameRep>, chunk: nat, v: bool)
    requires FullChunks(out, chunk, v)
    ensures StateBits(out + [Name(reps)], []) == StateBits(out, reps)
    ensures FullChunk(Name(reps), chunk, v) ==> FullChunks(out + [Name(reps)], chunk, v)
    ensures |ListBits([])| == 0
  {
    assert [Name(reps)][1..] == [];
    assert StateBits([Name(reps)], []) == ListBits(reps) + [];
    StateExtend(out, reps, [Name(reps)], [], []);
  }

  /** Well-formed and, when `v` asks for it, expressible in Verilog. */
  predicate FineRep(nr: NameRep, v: bool) {
    WfRep(nr) && (v ==> VerilogOkRep(nr))
  }

  predicate Fine(reps: seq<NameRep>, v: bool) {
    forall i :: 0 <= i < |reps| ==> FineRep(reps[i], v)
  }

  lemma FinePush(reps: seq<NameRep>, nr: NameRep, v: bool)
    requires Fine(reps, v) && FineRep(nr, v)
    ensures Fine(reps + [nr], v)
  {
  }

  predicate FullChunk(na: Name, chunk: nat, v: bool) {
    na.repList != [] && Fine(na.repList, v) && |NameBits(na)| == chunk
  }

  predicate FullChunks(out: seq<Name>, chunk: nat, v: bool) {
    forall i :: 0 <= i < |out| ==> FullChunk(out[i], chunk, v)
  }

  lemma FullChunksAppend(a: seq<Name>, b: seq<Name>, chunk: nat, v: bool)
    requires FullChunks(a, chunk, v) && FullChunks(b, chunk, v)
    ensures FullChunks(a + b, chunk, v)
  {
  }

  /** What the caller of the unit case has to establish for the running count to come out right. */
  predicate CountReaches(nu: NameUnit, cumSize: cnt, chunk: cnt) {
    nu.IsVector() ==> cumSize == 0 || chunk - cumSize <= nu.Size()
  }

  /** The unit case.  No bit is lost and every emitted name is one full chunk whatever the caller
      does; but the vector branch overwrites the running count, so the count is right if and only
      if the unit reaches the end of the chunk under way (or no chunk is under way). */
  method PartitionUnit(nu: NameUnit, repList: seq<NameRep>, cumSize: cnt, chunk: cnt, ghost v: bool)
    returns (out: seq<Name>, repList': seq<NameRep>, cumSize': cnt)
    requires WfUnit(nu) && (v ==> IsIdentifier(nu.base)) && Fine(repList, v)
    requires cumSize == |ListBits(repList)| && cumSize < chunk < TWO63
    ensures StateBits(out, repList') == ListBits(repList) + UnitBits(nu)
    ensures FullChunks(out, chunk, v) && Fine(repList', v)
    ensures |ListBits(repList')| < chunk
    ensures cumSize' == |ListBits(repList')| <==> CountReaches(nu, cumSize, chunk)
  {
    WfUnitFits(nu);
    if nu.IsVector() {
      out, repList', cumSize' := PartitionVector(nu, repList, cumSize, chunk, v);
    } else {
      var self := NameRep(1, Unit(nu));
      assert self.data == Unit(nu) && WfData(self.data) && (v ==> VerilogOkData(self.data));
      assert FineRep(self, v);
      RepeatOnce(UnitBits(nu));
      ListBitsSnoc(repList, self);
      out, repList', cumSize' := [], repList + [self], cumSize + 1;
      if cumSize' == chunk {
        StateEmit(out, repList', chunk, v);
        out, repList', cumSize' := out + [Name(repList')], [], 0;
      }
    }
  }

  /** The vector branch: the loop over whole chunks, and what is left. */
  method PartitionVector(nu: NameUnit, repList: seq<NameRep>, cumSize: cnt, chunk: cnt, ghost v: bool)
    returns (out: seq<Name>, repList': seq<NameRep>, cumSize': cnt)
    requires WfUnit(nu) && (v ==> IsIdentifier(nu.base)) && Fine(repList, v) && nu.IsVector()
    requires cumSize == |ListBits(repList)| && cumSize < chunk < TWO63
    ensures StateBits(out, repList') == ListBits(repList) + UnitBits(nu)
    ensures FullChunks(out, chunk, v) && Fine(repList', v)
    ensures |ListBits(repList')| < chunk
    ensures cumSize' == |ListBits(repList')| <==> cumSize == 0 || chunk - cumSize <= nu.Size()
  {
    WfUnitFits(nu);
    out, repList', cumSize' := [], repList, cumSize;
    var r := nu.idxRange;
    ghost var bits := UnitBits(nu);
    var curSize := r.Size();
    var startIdx: cnt := 0;
    var stopIdx: cnt := chunk - cumSize;
    while stopIdx <= curSize
      invariant startIdx <= curSize && startIdx < stopIdx
      invariant stopIdx == if startIdx == 0 then chunk - cumSize else startIdx + chunk
      invariant repList' == if startIdx == 0 then repList else []
      invariant StateBits(out, repList') == ListBits(repList) + bits[..startIdx]
      invariant FullChunks(out, chunk, v)
      decreases curSize - startIdx
    {
      var piece := NameRep(1, Unit(NameUnit(nu.base, Range(r.At(startIdx), r.At(stopIdx - 1), r.step))));
      EmitPiece(nu, startIdx, stopIdx, piece, out, repList', ListBits(repList), chunk, v);
      out, repList' := out + [Name(repList' + [piece])], [];
      startIdx, stopIdx := stopIdx, stopIdx + chunk;
    }
    if startIdx < curSize {
      var piece := NameRep(1, Unit(NameUnit(nu.base, Range(r.At(startIdx), r.stop, r.step))));
      PushPiece(nu, startIdx, curSize, piece, out, repList', ListBits(repList), v);
      repList' := repList' + [piece];
      cumSize' := curSize - startIdx;
    } else {
      cumSize' := 0;
    }
    assert bits[..curSize] == bits;
  }

  lemma PieceFine(nu: NameUnit, a: cnt, b: cnt, piece: NameRep, v: bool)
    requires WfUnit(nu) && (v ==> IsIdentifier(nu.base)) && nu.IsVector() && a < b <= nu.idxRange.Size()
    requires piece.mult == 1 && piece.data.Unit? && piece.data.nu.base == nu.base
    requires var r, s := nu.idxRange, piece.data.nu.idxRange;
      s == Range(r.At(a), r.At(b - 1), r.step) || (b == r.Size() && s == Range(r.At(a), r.stop, r.step))
    ensures FineRep(piece, v)
  {
    WfUnitFits(nu);
    InsideEnds(nu.idxRange, a);
    InsideEnds(nu.idxRange, b - 1);
    assert WfUnit(piece.data.nu);
  }

  lemma PushPiece(nu: NameUnit, a: cnt, b: cnt, piece: NameRep, out: seq<Name>, reps: seq<NameRep>, before: seq<Bit>, v: bool)
    requires WfUnit(nu) && (v ==> IsIdentifier(nu.base)) && nu.IsVector() && a < b <= nu.idxRange.Size()
    requires piece.mult == 1 && piece.data.Unit? && piece.data.nu.base == nu.base
    requires var r, s := nu.idxRange, piece.data.nu.idxRange;
      s == Range(r.At(a), r.At(b - 1), r.step) || (b == r.Size() && s == Range(r.At(a), r.stop, r.step))
    requires StateBits(out, reps) == before + UnitBits(nu)[..a]
    requires Fine(reps, v)
    ensures Fine(reps + [piece], v)
    ensures |ListBits(reps + [piece])| == |ListBits(reps)| + b - a
    ensures StateBits(out, reps + [piece]) == before + UnitBits(nu)[..b]
  {
    var bits := UnitBits(nu);
    PieceBits(nu, a, b, piece);
    PieceFine(nu, a, b, piece, v);
    FinePush(reps, piece, v);
    ListBitsSnoc(reps, piece);
    StatePush(out, reps, piece);
    NextSlice(before, bits, a, b);
  }

  /** The piece completes a chunk. */
  lemma EmitPiece(nu: NameUnit, a: cnt, b: cnt, piece: NameRep, out: seq<Name>, reps: seq<NameRep>, before: seq<Bit>,
                  chunk: nat, v: bool)
    requires WfUnit(nu) && (v ==> IsIdentifier(nu.base)) && nu.IsVector() && a < b <= nu.idxRange.Size()
    requires piece == NameRep(1, Unit(NameUnit(nu.base, Range(nu.idxRange.At(a), nu.idxRange.At(b - 1), nu.idxRange.step))))
    requires StateBits(out, reps) == before + UnitBits(nu)[..a]
    requires Fine(reps, v) && FullChunks(out, chunk, v) && |ListBits(reps)| + b - a == chunk
    ensures StateBits(out + [Name(reps + [piece])], []) == before + UnitBits(nu)[..b]
    ensures FullChunks(out + [Name(reps + [piece])], chunk, v)
  {
    PushPiece(nu, a, b, piece, out, reps, before, v);
    StateEmit(out, reps + [piece], chunk, v);
  }

  lemma NextSlice(before: seq<Bit>, bits: seq<Bit>, a: nat, b: nat)
    requires a <= b <= |bits|
    ensures before + bits[..b] == before + bits[..a] + bits[a..b]
  {
  }

  lemma PieceBits(nu: NameUnit, a: cnt, b: cnt, piece: NameRep)
    requires WfUnit(nu) && nu.IsVector() && a < b <= nu.idxRange.Size()
    requires piece.mult == 1 && piece.data.Unit? && piece.data.nu.base == nu.base
    requires var r, s := nu.idxRange, piece.data.nu.idxRange;
      s == Range(r.At(a), r.At(b - 1), r.step) || (b == r.Size() && s == Range(r.At(a), r.stop, r.step))
    ensures RepBits(piece) == UnitBits(nu)[a..b]
  {
    WfUnitFits(nu);
    SubUnitBits(nu, a, b, piece.data.nu.idxRange);
    RepeatOnce(UnitBits(piece.data.nu));
  }

  /** The repeated-name case: whole repetitions go into the pending list, and only the one that
      straddles the end of a chunk is taken apart. */
  method PartitionRep(nr: NameRep, repList: seq<NameRep>, cumSize: cnt, chunk: cnt, ghost v: bool)
    returns (out: seq<Name>, repList': seq<NameRep>, cumSize': cnt)
    requires FineRep(nr, v) && Fine(repList, v)
    requires |RepBits(nr)| < TWO63
    requires cumSize == |ListBits(repList)| && cumSize < chunk < TWO63
    ensures StateBits(out, repList') == ListBits(repList) + RepBits(nr)
    ensures FullChunks(out, chunk, v) && Fine(repList', v)
    ensures cumSize' == |ListBits(repList')| && cumSize' < chunk
    decreases nr, 2
  {
    ghost var bits := DataBits(nr.data);
    RepSizes(nr);
    var dataN := DataSize(nr.data);
    var remainRep: cnt := nr.mult;
    out, repList', cumSize' := [], repList, cumSize;
    while remainRep > 0
      invariant remainRep <= nr.mult
      invariant cumSize' == |ListBits(repList')| && cumSize' < chunk
      invariant FullChunks(out, chunk, v) && Fine(repList', v)
      invariant StateBits(out, repList') == ListBits(repList) + Repeat(bits, nr.mult - remainRep)
      decreases remainRep
    {
      var out1, repList1, used;
      out1, repList1, cumSize', used := RepStep(nr, dataN, remainRep, repList', cumSize', chunk, v);
      FullChunksAppend(out, out1, chunk, v);
      MoreCopies(bits, nr.mult - remainRep, used, out, repList', out1, repList1, ListBits(repList));
      out, repList' := out + out1, repList1;
      remainRep := remainRep - used;
      if cumSize' == chunk {
        StateEmit(out, repList', chunk, v);
        out, repList', cumSize' := out + [Name(repList')], [], 0;
      }
    }
  }

  /** One round of the loop: as many whole repetitions as fit, and perhaps one more in part. */
  method RepStep(nr: NameRep, dataN: cnt, remainRep: cnt, repList: seq<NameRep>, cumSize: cnt, chunk: cnt, ghost v: bool)
    returns (out: seq<Name>, repList': seq<NameRep>, cumSize': cnt, used: cnt)
    requires FineRep(nr, v) && Fine(repList, v)
    requires |RepBits(nr)| < TWO63 && dataN == |DataBits(nr.data)| && 0 < remainRep <= nr.mult
    requires cumSize == |ListBits(repList)| && cumSize < chunk < TWO63
    ensures StateBits(out, repList') == ListBits(repList) + Repeat(DataBits(nr.data), used)
    ensures FullChunks(out, chunk, v) && Fine(repList', v)
    ensures cumSize' == |ListBits(repList')| <= chunk && 0 < used <= remainRep
    decreases nr, 1
  {
    RepSizes(nr);
    var quot := Quotient(chunk - cumSize, dataN);
    var rem := Remainder(chunk - cumSize, dataN);
    QuotientBracket(chunk - cumSize, dataN);
    if quot >= remainRep {
      // the whole name is used up
      TimesMono(remainRep, quot, dataN);
      PushCopies(nr, remainRep, repList, v);
      out, repList', used := [], repList + [NameRep(remainRep, nr.data)], remainRep;
      cumSize' := cumSize + Times(remainRep, dataN);
    } else {
      out, repList', cumSize', used := FillChunk(nr, quot, rem, repList, cumSize, chunk, v);
    }
  }

  /** The branch with repetitions left over: `quot` of them still fit whole into the chunk, and one
      more is taken apart when the chunk does not end exactly there. */
  method FillChunk(nr: NameRep, quot: cnt, rem: cnt, repList: seq<NameRep>, cumSize: cnt, chunk: cnt, ghost v: bool)
    returns (out: seq<Name>, repList': seq<NameRep>, cumSize': cnt, used: cnt)
    requires FineRep(nr, v) && Fine(repList, v)
    requires |RepBits(nr)| < TWO63
    requires cumSize == |ListBits(repList)| && cumSize < chunk < TWO63
    requires quot < nr.mult && rem < |DataBits(nr.data)|
    requires chunk - cumSize == Times(quot, |DataBits(nr.data)|) + rem
    ensures StateBits(out, repList') == ListBits(repList) + Repeat(DataBits(nr.data), used)
    ensures FullChunks(out, chunk, v) && Fine(repList', v)
    ensures cumSize' == |ListBits(repList')| <= chunk
    ensures used == quot + (if rem != 0 then 1 else 0) && used > 0
    decreases nr, 0
  {
    ghost var bits := DataBits(nr.data);
    RepSizes(nr);
    var dataN := DataSize(nr.data);
    out, repList', cumSize', used := [], repList, cumSize, 0;
    if quot > 0 {
      PushCopies(nr, quot, repList, v);
      repList' := repList' + [NameRep(quot, nr.data)];
      cumSize' := cumSize' + Times(quot, dataN);
      used := quot;
    }
    assert StateBits([], repList') == ListBits(repList) + Repeat(bits, used);
    if rem != 0 {
      ghost var pending := repList';
      out, repList', cumSize' := PartitionData(nr.data, repList', cumSize', chunk, v);
      OneMoreCopy(bits, used, pending, out, repList', ListBits(repList));
      used := used + 1;
    }
  }

  lemma RepSizes(nr: NameRep)
    requires WfRep(nr) && |RepBits(nr)| < TWO63
    ensures FitData(nr.data) && 1 <= |DataBits(nr.data)| <= |RepBits(nr)|
  {
    WfDataHasBits(nr.data);
    RepeatLength(DataBits(nr.data), nr.mult);
    TimesMono(1, nr.mult, |DataBits(nr.data)|);
    WfDataFits(nr.data);
  }

  lemma PushCopies(nr: NameRep, k: cnt, reps: seq<NameRep>, v: bool)
    requires 0 < k <= nr.mult && FineRep(nr, v) && Fine(reps, v)
    ensures Fine(reps + [NameRep(k, nr.data)], v)
    ensures ListBits(reps + [NameRep(k, nr.data)]) == ListBits(reps) + Repeat(DataBits(nr.data), k)
    ensures |ListBits(reps + [NameRep(k, nr.data)])| == |ListBits(reps)| + Times(k, |DataBits(nr.data)|)
  {
    assert FineRep(NameRep(k, nr.data), v);
    ListBitsSnoc(reps, NameRep(k, nr.data));
    RepeatLength(DataBits(nr.data), k);
  }

  lemma MoreCopies(bits: seq<Bit>, done: nat, k: nat, out: seq<Name>, reps: seq<NameRep>, out1: seq<Name>, reps1: seq<NameRep>,
                   before: seq<Bit>)
    requires StateBits(out, reps) == before + Repeat(bits, done)
    requires StateBits(out1, reps1) == ListBits(reps) + Repeat(bits, k)
    ensures StateBits(out + out1, reps1) == before + Repeat(bits, done + k)
  {
    StateExtend(out, reps, out1, reps1, Repeat(bits, k));
    RepeatAdd(bits, done, k);
    assert before + Repeat(bits, done) + Repeat(bits, k) == before + (Repeat(bits, done) + Repeat(bits, k));
  }

  lemma OneMoreCopy(bits: seq<Bit>, done: nat, reps: seq<NameRep>, out1: seq<Name>, reps1: seq<NameRep>, before: seq<Bit>)
    requires StateBits([], reps) == before + Repeat(bits, done)
    requires StateBits(out1, reps1) == ListBits(reps) + bits
    ensures StateBits(out1, reps1) == before + Repeat(bits, done + 1)
  {
    RepeatOnce(bits);
    MoreCopies(bits, done, 1, [], reps, out1, reps1, before);
    assert [] + out1 == out1;
  }

  /** Dispatch on the data of a repeated name, as the visitor does: it is only reached when less
      than one repetition fits into the chunk under way. */
  method PartitionData(d: Data, repList: seq<NameRep>, cumSize: cnt, chunk: cnt, ghost v: bool)
    returns (out: seq<Name>, repList': seq<NameRep>, cumSize': cnt)
    requires WfData(d) && (v ==> VerilogOkData(d)) && Fine(repList, v)
    requires |DataBits(d)| < TWO63
    requires cumSize == |ListBits(repList)| && cumSize < chunk < TWO63
    requires chunk - cumSize < |DataBits(d)|
    ensures StateBits(out, repList') == ListBits(repList) + DataBits(d)
    ensures FullChunks(out, chunk, v) && Fine(repList', v)
    ensures cumSize' == |ListBits(repList')| && cumSize' < chunk
    decreases d
  {
    match d
    case Unit(nu) =>
      WfUnitFits(nu);
      out, repList', cumSize' := PartitionUnit(nu, repList, cumSize, chunk, v);
    case Group(na) =>
      out, repList', cumSize' := PartitionName(na, repList, cumSize, chunk, v);
  }

  method PartitionName(na: Name, repList: seq<NameRep>, cumSize: cnt, chunk: cnt, ghost v: bool)
    returns (out: seq<Name>, repList': seq<NameRep>, cumSize': cnt)
    requires WfList(na.repList) && (v ==> VerilogOkList(na.repList)) && Fine(repList, v)
    requires |NameBits(na)| < TWO63
    requires cumSize == |ListBits(repList)| && cumSize < chunk < TWO63
    ensures StateBits(out, repList') == ListBits(repList) + NameBits(na)
    ensures FullChunks(out, chunk, v) && Fine(repList', v)
    ensures cumSize' == |ListBits(repList')| && cumSize' < chunk
    decreases na
  {
    out, repList', cumSize' := [], repList, cumSize;
    ghost var reps := na.repList;
    for idx := 0 to |na.repList|
      invariant StateBits(out, repList') == ListBits(repList) + ListBits(reps[..idx])
      invariant FullChunks(out, chunk, v) && Fine(repList', v)
      invariant cumSize' == |ListBits(repList')| && cumSize' < chunk
    {
      OneRepFits(reps, idx);
      var out1, repList1;
      out1, repList1, cumSize' := PartitionRep(na.repList[idx], repList', cumSize', chunk, v);
      FullChunksAppend(out, out1, chunk, v);
      NextRep(reps, idx, out, repList', out1, repList1, ListBits(repList));
      out, repList' := out + out1, repList1;
    }
    assert reps[..|reps|] == reps;
  }

  lemma OneRepFits(reps: seq<NameRep>, i: nat)
    requires i < |reps|
    ensures |RepBits(reps[i])| <= |ListBits(reps)|
  {
    TakeOneMore(reps, i);
    PrefixBits(reps, i + 1);
  }

  lemma NextRep(reps: seq<NameRep>, i: nat, out: seq<Name>, pending: seq<NameRep>, out1: seq<Name>, pending1: seq<NameRep>,
                before: seq<Bit>)
    requires i < |reps|
    requires StateBits(out, pending) == before + ListBits(reps[..i])
    requires StateBits(out1, pending1) == ListBits(pending) + RepBits(reps[i])
    ensures StateBits(out + out1, pending1) == before + ListBits(reps[..i + 1])
  {
    TakeOneMore(reps, i);
    StateExtend(out, pending, out1, pending1, RepBits(reps[i]));
    assert before + ListBits(reps[..i]) + RepBits(reps[i]) == before + (ListBits(reps[..i]) + RepBits(reps[i]));
  }

  /** The pieces of `bits` in order: full chunks, then one last piece of 1 to `chunk` bits. */
  ghost predicate IsPartition(out: seq<Name>, bits: seq<Bit>, chunk: nat, v: bool) {
    && out != []
    && OutBits(out) == bits
    && FullChunks(out[..|out| - 1], chunk, v)
    && var last := out[|out| - 1];
       last.repList != [] && Fine(last.repList, v) && 1 <= |NameBits(last)| <= chunk
  }

  method GetPartition(na: Name, chunk: cnt, ghost v: bool) returns (out: seq<Name>)
    requires WfName(na) && (v ==> VerilogOkList(na.repList))
    requires |NameBits(na)| < TWO63 && 1 <= chunk < TWO63
    ensures IsPartition(out, NameBits(na), chunk, v)
  {
    var temp: seq<NameRep>, cumSize;
    WfDataHasBits(Group(na));
    assert ListBits([]) == [];
    out, temp, cumSize := PartitionName(na, [], 0, chunk, v);
    assert StateBits(out, temp) == NameBits(na);
    StateExtend(out, [], [], temp, ListBits(temp));
    assert out + [] == out;
    assert cumSize == 0 ==> OutBits(out) == NameBits(na);
    if cumSize != 0 {
      StateEmit(out, temp, chunk, v);
      assert (out + [Name(temp)])[..|out|] == out;
      out := out + [Name(temp)];
    }
  }

  // ---------------------------------------------------------------------------------------------
  // A partition is unique: piece i is the slice of the bit list that starts at i * chunk.

  lemma {:induction false} PieceIsSlice(out: seq<Name>, bits: seq<Bit>, chunk: nat, v: bool, i: nat)
    requires IsPartition(out, bits, chunk, v) && i < |out|
    ensures Times(i, chunk) + |NameBits(out[i])| <= |bits|
    ensures NameBits(out[i]) == bits[Times(i, chunk)..Times(i, chunk) + |NameBits(out[i])|]
    ensures i == |out| - 1 ==> Times(i, chunk) + |NameBits(out[i])| == |bits|
    decreases i
  {
    if i == 0 {
      if |out| == 1 {
        assert out == [out[0]];
        assert OutBits(out[1..]) == [];
      }
    } else {
      DropFirst(out, bits, chunk, v);
      PieceIsSlice(out[1..], bits[chunk..], chunk, v, i - 1);
      SliceOfTail(bits, chunk, Times(i - 1, chunk), |NameBits(out[i])|);
    }
  }

  /** Without its first piece a partition is a partition of the rest. */
  lemma DropFirst(out: seq<Name>, bits: seq<Bit>, chunk: nat, v: bool)
    requires IsPartition(out, bits, chunk, v) && |out| > 1
    ensures chunk <= |bits| && IsPartition(out[1..], bits[chunk..], chunk, v)
  {
    assert FullChunk(out[..|out| - 1][0], chunk, v);
    assert bits[chunk..] == OutBits(out[1..]);
    assert out[1..][..|out| - 2] == out[..|out| - 1][1..];
  }

  lemma SliceOfTail(bits: seq<Bit>, chunk: nat, at: nat, n: nat)
    requires chunk <= |bits| && at + n <= |bits| - chunk
    ensures bits[chunk..][at..at + n] == bits[chunk + at..chunk + at + n]
  {
  }

  /** A bit list of n chunks is cut into exactly n pieces. */
  lemma PartitionCount(out: seq<Name>, bits: seq<Bit>, chunk: nat, v: bool, n: nat)
    requires IsPartition(out, bits, chunk, v) && chunk > 0
    requires |bits| == Times(n, chunk)
    ensures |out| == n
    ensures forall i :: 0 <= i < n ==> |NameBits(out[i])| == chunk
  {
    var k := |out| - 1;
    PieceIsSlice(out, bits, chunk, v, k);
    if k + 1 < n {
      TimesMono(k + 2, n, chunk);
    } else if n < k + 1 {
      TimesMono(n, k, chunk);
    }
    forall i | 0 <= i < n
      ensures |NameBits(out[i])| == chunk
    {
      if i < k {
        assert FullChunk(out[..k][i], chunk, v);
      }
    }
  }
}
