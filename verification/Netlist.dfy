/** How an instance is netlisted, arrayed or not: the Verilog writer cuts each net with get_partition, the
    CDL writer expands it and counts bits (netlist/verilog.cpp, netlist/cdl.cpp).  Both are proved
    against one specification, the bits each array element connects. */
module Netlist {
  import opened Arithmetic
  import opened Counts
  import opened NameAst
  import opened NameGrammar
  import opened Partition
  import opened Verilog

  type Connections = map<string, string>

  /** A terminal of the cell and the net connected to it, both parsed. */
  datatype Term = Term(unit: NameUnit, net: Name)

  /** Looks up and parses one terminal; a missing or malformed name is an error. */
  function ParseTerm(conns: Connections, term: string): (r: Result<Term>)
    ensures r.Ok? ==> WfTerm(r.value)
  {
    if term !in conns || UnitOf(term).Err? || NameOf(conns[term]).Err? then Err
    else Ok(Term(UnitOf(term).value, NameOf(conns[term]).value))
  }

  function ParseTerms(conns: Connections, terms: seq<string>): (r: Result<seq<Term>>)
    ensures r.Ok? ==> |r.value| == |terms| && WfTerms(r.value)
  {
    if terms == [] then Ok([])
    else
      var head, tail := ParseTerm(conns, terms[0]), ParseTerms(conns, terms[1..]);
      if head.Err? || tail.Err? then Err else Ok([head.value] + tail.value)
  }

  /** The terminal is connected, and both its names parse. */
  predicate TermOk(conns: Connections, term: string) {
    term in conns && UnitOf(term).Ok? && NameOf(conns[term]).Ok?
  }

  /** A whole list parses if and only if every terminal is connected and both its names parse; then each
      result is the parsed terminal and net. */
  lemma {:induction false} ParseTermsMean(conns: Connections, terms: seq<string>)
    ensures ParseTerms(conns, terms).Ok? <==> forall k :: 0 <= k < |terms| ==> TermOk(conns, terms[k])
    ensures ParseTerms(conns, terms).Ok? ==>
      forall k :: 0 <= k < |terms| ==> TermOk(conns, terms[k]) && ParsedAs(conns, terms[k], ParseTerms(conns, terms).value[k])
  {
    if terms != [] {
      var tail := terms[1..];
      ParseTermsMean(conns, tail);
      ParseTermMeans(conns, terms[0]);
      assert (forall k :: 0 <= k < |terms| ==> TermOk(conns, terms[k])) <==>
        TermOk(conns, terms[0]) && forall k :: 0 <= k < |tail| ==> TermOk(conns, tail[k]) by {
        assert forall k :: 0 <= k < |tail| ==> tail[k] == terms[k + 1];
        assert forall k :: 1 <= k < |terms| ==> terms[k] == tail[k - 1];
      }
    }
  }

  predicate ParsedAs(conns: Connections, term: string, t: Term)
    requires TermOk(conns, term)
  {
    t.unit == UnitOf(term).value && t.net == NameOf(conns[term]).value
  }

  lemma ParseTermMeans(conns: Connections, term: string)
    ensures ParseTerm(conns, term).Ok? <==> TermOk(conns, term)
    ensures TermOk(conns, term) ==> ParsedAs(conns, term, ParseTerm(conns, term).value)
  {
  }

  // ---------------------------------------------------------------------------------------------
  // Specification

  predicate WfTerm(t: Term) {
    WfUnit(t.unit) && WfName(t.net)
  }

  predicate WfTerms(ts: seq<Term>) {
    forall k :: 0 <= k < |ts| ==> WfTerm(ts[k])
  }

  /** Each net has the width of `n` copies of its terminal, and 63 bits hold the width. */
  predicate Widths(ts: seq<Term>, n: nat) {
    forall k :: 0 <= k < |ts| ==> Width(ts[k], n)
  }

  predicate Width(t: Term, n: nat) {
    |NameBits(t.net)| == Times(n, t.unit.Size()) < TWO63
  }

  /** Bits of all nets, terminal after terminal: what a single instance connects. */
  function Whole(ts: seq<Term>): seq<Bit> {
    if ts == [] then [] else Whole(ts[..|ts| - 1]) + NameBits(ts[|ts| - 1].net)
  }

  /** 63 bits hold the width of every net. */
  predicate FitNets(ts: seq<Term>) {
    forall k :: 0 <= k < |ts| ==> |NameBits(ts[k].net)| < TWO63
  }

  /** What the code needs of an instance of `n` elements: an arrayed one indexes its nets by terminal
      width, a single one lists them whole, whatever their width. */
  predicate Writable(ts: seq<Term>, n: nat) {
    FitNets(ts) && (n != 1 ==> Widths(ts, n))
  }

  /** Bits that element `i` of an instance of `n` elements connects. */
  function Element(ts: seq<Term>, n: nat, i: nat): seq<Bit> {
    if n == 1 then Whole(ts) else Row(ts, i)
  }

  /** With the right widths a single instance is the array of one element. */
  lemma {:induction false} WholeIsRow(ts: seq<Term>)
    requires Widths(ts, 1)
    ensures Whole(ts) == Row(ts, 0)
  {
    if ts != [] {
      WholeIsRow(ts[..|ts| - 1]);
      var t := ts[|ts| - 1];
      assert Width(t, 1);
      WholeSlice(NameBits(t.net), t.unit.Size());
    }
  }

  /** Verilog can express every net. */
  predicate AllVerilogOk(ts: seq<Term>) {
    forall k :: 0 <= k < |ts| ==> VerilogOkList(ts[k].net.repList)
  }

  /** Bits that array element `i` connects to a terminal of width `t`. */
  function Slice(bits: seq<Bit>, i: nat, t: nat): seq<Bit> {
    if Times(i + 1, t) <= |bits| then bits[Times(i, t)..Times(i + 1, t)] else []
  }

  /** Bits that array element `i` connects, terminal after terminal. */
  function Row(ts: seq<Term>, i: nat): seq<Bit> {
    if ts == [] then []
    else Row(ts[..|ts| - 1], i) + Slice(NameBits(ts[|ts| - 1].net), i, ts[|ts| - 1].unit.Size())
  }

  lemma RowNext(ts: seq<Term>, i: nat, k: nat)
    requires k < |ts|
    ensures Row(ts[..k + 1], i) == Row(ts[..k], i) + Slice(NameBits(ts[k].net), i, ts[k].unit.Size())
  {
    assert ts[..k + 1][..k] == ts[..k];
  }

  // ---------------------------------------------------------------------------------------------
  // CDL

  /** get_term_net_pairs: terminal width and expanded net bits. */
  method TermNetPairs(ts: seq<Term>) returns (pairs: seq<(cnt, seq<Bit>)>)
    requires WfTerms(ts) && forall k :: 0 <= k < |ts| ==> |NameBits(ts[k].net)| < TWO63
    ensures |pairs| == |ts|
    ensures forall k :: 0 <= k < |ts| ==> pairs[k] == (ts[k].unit.Size(), NameBits(ts[k].net))
  {
    pairs := [];
    for k := 0 to |ts|
      invariant |pairs| == k
      invariant forall j :: 0 <= j < k ==> pairs[j] == (ts[j].unit.Size(), NameBits(ts[j].net))
    {
      assert WfTerm(ts[k]);
      WfDataFits(Group(ts[k].net));
      var bits := GetNameBits(ts[k].net);
      pairs := pairs + [(ts[k].unit.Size(), bits)];
    }
  }

  /** The arrayed branch of write_instance: counters step through each expanded net. */
  method CdlRows(n: cnt, pairs: seq<(cnt, seq<Bit>)>, ghost ts: seq<Term>) returns (rows: seq<seq<Bit>>)
    requires Widths(ts, n) && |pairs| == |ts|
    requires forall k :: 0 <= k < |ts| ==> pairs[k] == (ts[k].unit.Size(), NameBits(ts[k].net))
    ensures |rows| == n && forall i :: 0 <= i < n ==> rows[i] == Row(ts, i)
  {
    rows := [];
    for instIdx: int := 0 to n
      invariant |rows| == instIdx && forall i :: 0 <= i < instIdx ==> rows[i] == Row(ts, i)
    {
      var row := CdlRow(instIdx, n, pairs, ts);
      rows := rows + [row];
    }
  }

  method CdlRow(instIdx: nat, n: nat, pairs: seq<(cnt, seq<Bit>)>, ghost ts: seq<Term>) returns (row: seq<Bit>)
    requires Widths(ts, n) && |pairs| == |ts| && instIdx < n
    requires forall k :: 0 <= k < |ts| ==> pairs[k] == (ts[k].unit.Size(), NameBits(ts[k].net))
    ensures row == Row(ts, instIdx)
  {
    row := [];
    for k := 0 to |pairs|
      invariant row == Row(ts[..k], instIdx)
    {
      RowNext(ts, instIdx, k);
      assert Width(ts[k], n);
      TimesMono(instIdx + 1, n, pairs[k].0);
      row := AppendSlice(row, pairs[k].1, instIdx, pairs[k].0);
    }
    assert ts[..|ts|] == ts;
  }

  /** append_nets: a single instance lists every bit of every net. */
  method CdlPlainRow(ts: seq<Term>) returns (row: seq<Bit>)
    requires WfTerms(ts) && FitNets(ts)
    ensures row == Whole(ts)
  {
    row := [];
    for k := 0 to |ts|
      invariant row == Whole(ts[..k])
    {
      assert ts[..k + 1][..k] == ts[..k];
      assert WfTerm(ts[k]);
      WfDataFits(Group(ts[k].net));
      var bits := GetNameBits(ts[k].net);
      row := row + bits;
    }
    assert ts[..|ts|] == ts;
  }

  lemma WholeSlice(bits: seq<Bit>, t: nat)
    requires |bits| == Times(1, t)
    ensures Slice(bits, 0, t) == bits
  {
  }

  method AppendSlice(row: seq<Bit>, bits: seq<Bit>, instIdx: nat, termN: nat) returns (row': seq<Bit>)
    requires Times(instIdx + 1, termN) <= |bits|
    ensures row' == row + Slice(bits, instIdx, termN)
  {
    row' := row;
    var netIdx := Times(instIdx, termN);
    var stopIdx := netIdx + termN;
    ghost var start := netIdx;
    while netIdx < stopIdx
      invariant start <= netIdx <= stopIdx
      invariant row' == row + bits[start..netIdx]
    {
      row' := row' + [bits[netIdx]];
      netIdx := netIdx + 1;
    }
  }

  // ---------------------------------------------------------------------------------------------
  // Verilog

  /** One port connection `.base(text)`. */
  datatype Port = Port(base: string, text: string)

  /** What a whole port list connects; None when some port text is not a Verilog expression. */
  function ReadRow(ports: seq<Port>): Option<seq<Bit>> {
    if ports == [] then Some([])
    else
      var before, last := ReadRow(ports[..|ports| - 1]), Denotes(ports[|ports| - 1].text);
      if before.None? || last.None? then None else Some(before.value + last.value)
  }

  /** Ports named after the terminals; when Verilog can express every net, they connect `row`. */
  predicate RightPorts(ts: seq<Term>, row: seq<Bit>, ports: seq<Port>) {
    && |ports| == |ts|
    && (forall k :: 0 <= k < |ts| ==> ports[k].base == ts[k].unit.base)
    && (AllVerilogOk(ts) ==> ReadRow(ports) == Some(row))
  }

  /** One piece for each array element, with exactly the bits of that element. */
  predicate IsSplit(pieces: seq<Name>, t: Term, n: nat) {
    && |pieces| == n
    && forall i :: 0 <= i < n ==> IsPiece(pieces[i], t, i)
  }

  predicate IsPiece(piece: Name, t: Term, i: nat) {
    && WfName(piece)
    && NameBits(piece) == Slice(NameBits(t.net), i, t.unit.Size())
    && (VerilogOkList(t.net.repList) ==> VerilogOkList(piece.repList))
  }

  lemma PartitionSplits(pieces: seq<Name>, t: Term, n: nat)
    requires IsPartition(pieces, NameBits(t.net), t.unit.Size(), VerilogOkList(t.net.repList))
    requires t.unit.Size() > 0 && Width(t, n)
    ensures IsSplit(pieces, t, n)
  {
    var bits, size, v := NameBits(t.net), t.unit.Size(), VerilogOkList(t.net.repList);
    PartitionCount(pieces, bits, size, v, n);
    forall i | 0 <= i < n
      ensures IsPiece(pieces[i], t, i)
    {
      TimesMono(i + 1, n, size);
      PieceIsSlice(pieces, bits, size, v, i);
      PieceIsFine(pieces, bits, size, v, i);
    }
  }

  lemma PieceIsFine(pieces: seq<Name>, bits: seq<Bit>, t: nat, v: bool, i: nat)
    requires IsPartition(pieces, bits, t, v) && i < |pieces|
    ensures WfName(pieces[i]) && (v ==> VerilogOkList(pieces[i].repList))
  {
    if i < |pieces| - 1 {
      assert FullChunk(pieces[..|pieces| - 1][i], t, v);
    }
    assert Fine(pieces[i].repList, v);
    assert forall j :: 0 <= j < |pieces[i].repList| ==> FineRep(pieces[i].repList[j], v);
  }

  /** split_array_inst_nets */
  method SplitArrayInstNets(ts: seq<Term>, ghost n: cnt) returns (split: seq<(string, seq<Name>)>)
    requires WfTerms(ts) && Widths(ts, n)
    ensures |split| == |ts|
    ensures forall k :: 0 <= k < |ts| ==> split[k].0 == ts[k].unit.base && IsSplit(split[k].1, ts[k], n)
  {
    split := [];
    for k := 0 to |ts|
      invariant |split| == k
      invariant forall j :: 0 <= j < k ==> split[j].0 == ts[j].unit.base && IsSplit(split[j].1, ts[j], n)
    {
      var pieces := SplitNet(ts[k], n);
      split := split + [(ts[k].unit.base, pieces)];
    }
  }

  method SplitNet(t: Term, ghost n: cnt) returns (pieces: seq<Name>)
    requires WfTerm(t) && Width(t, n)
    ensures IsSplit(pieces, t, n)
  {
    WfUnitFits(t.unit);
    pieces := GetPartition(t.net, t.unit.Size(), VerilogOkList(t.net.repList));
    PartitionSplits(pieces, t, n);
  }

  /** The arrayed branch of write_instance: element `instIdx` takes piece `instIdx` of every net. */
  method VerilogRows(n: cnt, split: seq<(string, seq<Name>)>, ghost ts: seq<Term>) returns (rows: seq<seq<Port>>)
    requires |split| == |ts|
    requires forall k :: 0 <= k < |ts| ==> split[k].0 == ts[k].unit.base && IsSplit(split[k].1, ts[k], n)
    ensures |rows| == n
    ensures forall i :: 0 <= i < n ==> RightPorts(ts, Row(ts, i), rows[i])
  {
    rows := [];
    for instIdx: int := 0 to n
      invariant |rows| == instIdx
      invariant forall i :: 0 <= i < instIdx ==> RightPorts(ts, Row(ts, i), rows[i])
    {
      var row := VerilogRow(instIdx, n, split, ts);
      rows := rows + [row];
    }
  }

  method VerilogRow(instIdx: nat, n: cnt, split: seq<(string, seq<Name>)>, ghost ts: seq<Term>) returns (row: seq<Port>)
    requires |split| == |ts| && instIdx < n
    requires forall k :: 0 <= k < |ts| ==> split[k].0 == ts[k].unit.base && IsSplit(split[k].1, ts[k], n)
    ensures RightPorts(ts, Row(ts, instIdx), row)
  {
    row := [];
    for k := 0 to |split|
      invariant RightPorts(ts[..k], Row(ts[..k], instIdx), row)
    {
      assert IsSplit(split[k].1, ts[k], n);
      var piece := split[k].1[instIdx];
      assert IsPiece(piece, ts[k], instIdx);
      RowNext(ts, instIdx, k);
      NextPort(ts, Row(ts[..k], instIdx), row, k, piece);
      row := row + [Port(split[k].0, NameTextV(piece.repList))];
    }
    assert ts[..|ts|] == ts;
  }

  /** append_inst_nets: a single instance connects every net as it stands. */
  method VerilogPlainRow(ts: seq<Term>) returns (row: seq<Port>)
    requires WfTerms(ts)
    ensures RightPorts(ts, Whole(ts), row)
  {
    row := [];
    for k := 0 to |ts|
      invariant RightPorts(ts[..k], Whole(ts[..k]), row)
    {
      assert WfTerm(ts[k]);
      assert ts[..k + 1][..k] == ts[..k];
      NextPort(ts, Whole(ts[..k]), row, k, ts[k].net);
      row := row + [Port(ts[k].unit.base, NameTextV(ts[k].net.repList))];
    }
    assert ts[..|ts|] == ts;
  }

  lemma NextPort(ts: seq<Term>, before: seq<Bit>, ports: seq<Port>, k: nat, piece: Name)
    requires k < |ts| && RightPorts(ts[..k], before, ports)
    requires WfName(piece) && (VerilogOkList(ts[k].net.repList) ==> VerilogOkList(piece.repList))
    ensures RightPorts(ts[..k + 1], before + NameBits(piece), ports + [Port(ts[k].unit.base, NameTextV(piece.repList))])
  {
    var port := Port(ts[k].unit.base, NameTextV(piece.repList));
    if AllVerilogOk(ts[..k + 1]) {
      VerilogOkPrefix(ts, k);
      VerilogDenotesBits(piece);
      ReadRowNext(ports, port, before, NameBits(piece));
    }
    NextBase(ts, ports, port, k);
  }

  lemma NextBase(ts: seq<Term>, ports: seq<Port>, port: Port, k: nat)
    requires k < |ts| && |ports| == k && port.base == ts[k].unit.base
    requires forall j :: 0 <= j < k ==> ports[j].base == ts[..k][j].unit.base
    ensures forall j :: 0 <= j < k + 1 ==> (ports + [port])[j].base == ts[..k + 1][j].unit.base
  {
    assert forall j :: 0 <= j < k ==> ts[..k][j] == ts[j];
  }

  lemma ReadRowNext(ports: seq<Port>, port: Port, before: seq<Bit>, bits: seq<Bit>)
    requires ReadRow(ports) == Some(before) && Denotes(port.text) == Some(bits)
    ensures ReadRow(ports + [port]) == Some(before + bits)
  {
    assert (ports + [port])[..|ports|] == ports;
  }

  lemma VerilogOkPrefix(ts: seq<Term>, k: nat)
    requires k < |ts| && AllVerilogOk(ts[..k + 1])
    ensures AllVerilogOk(ts[..k]) && VerilogOkList(ts[k].net.repList)
  {
    assert ts[..k + 1][k] == ts[k];
    forall j | 0 <= j < k
      ensures VerilogOkList(ts[..k][j].net.repList)
    {
      assert ts[..k + 1][j] == ts[..k][j];
    }
  }

  // ---------------------------------------------------------------------------------------------
  // Both writers on one instance

  /** What the two writers are given: names that parse, and widths that the code can index by. */
  predicate Netlistable(name: string, conns: Connections, terms: seq<string>) {
    UnitOf(name).Ok? && ParseTerms(conns, terms).Ok? ==> Writable(ParseTerms(conns, terms).value, UnitOf(name).value.Size())
  }

  method CdlInstance(name: string, conns: Connections, terms: seq<string>) returns (r: Result<seq<seq<Bit>>>)
    requires Netlistable(name, conns, terms)
    ensures r.Ok? <==> UnitOf(name).Ok? && ParseTerms(conns, terms).Ok?
    ensures r.Ok? ==> |r.value| == UnitOf(name).value.Size()
    ensures r.Ok? ==>
      forall i :: 0 <= i < |r.value| ==> r.value[i] == Element(ParseTerms(conns, terms).value, |r.value|, i)
  {
    var inst, ts := UnitOf(name), ParseTerms(conns, terms);
    if inst.Err? || ts.Err? {
      return Err;
    }
    if inst.value.Size() == 1 {
      var row := CdlPlainRow(ts.value);
      return Ok([row]);
    }
    var pairs := TermNetPairs(ts.value);
    var rows := CdlRows(inst.value.Size(), pairs, ts.value);
    return Ok(rows);
  }

  method VerilogInstance(name: string, conns: Connections, terms: seq<string>) returns (r: Result<seq<seq<Port>>>)
    requires Netlistable(name, conns, terms)
    ensures r.Ok? <==> UnitOf(name).Ok? && ParseTerms(conns, terms).Ok?
    ensures r.Ok? ==> |r.value| == UnitOf(name).value.Size()
    ensures r.Ok? ==>
      forall i :: 0 <= i < |r.value| ==>
        RightPorts(ParseTerms(conns, terms).value, Element(ParseTerms(conns, terms).value, |r.value|, i), r.value[i])
  {
    var inst, ts := UnitOf(name), ParseTerms(conns, terms);
    if inst.Err? || ts.Err? {
      return Err;
    }
    if inst.value.Size() == 1 {
      var row := VerilogPlainRow(ts.value);
      return Ok([row]);
    }
    var split := SplitArrayInstNets(ts.value, inst.value.Size());
    var rows := VerilogRows(inst.value.Size(), split, ts.value);
    return Ok(rows);
  }

  /** Both netlists connect the same nets: the ports written for an element, read as Verilog, give
      exactly the bits the CDL line lists for it. */
  method WriteBoth(name: string, conns: Connections, terms: seq<string>)
    returns (ports: Result<seq<seq<Port>>>, lines: Result<seq<seq<Bit>>>)
    requires Netlistable(name, conns, terms)
    ensures ports.Ok? <==> lines.Ok?
    ensures ports.Ok? ==> UnitOf(name).Ok? && ParseTerms(conns, terms).Ok?
    ensures ports.Ok? ==> |ports.value| == |lines.value| == UnitOf(name).value.Size()
    ensures ports.Ok? && ParseTerms(conns, terms).Ok? && AllVerilogOk(ParseTerms(conns, terms).value) ==>
              forall i :: 0 <= i < |ports.value| ==> ReadRow(ports.value[i]) == Some(lines.value[i])
  {
    ports := VerilogInstance(name, conns, terms);
    lines := CdlInstance(name, conns, terms);
  }
}
