/** The Verilog text form of a name, and a reader for it that follows the concatenation and
    replication syntax of section 5.1.14 of IEEE 1364-2005. */
module Verilog {
  import opened Arithmetic
  import opened Counts
  import opened Sequences
  import opened Decimal
  import opened NameAst
  import opened CdbaText
  import opened RoundTrip

  // ---------------------------------------------------------------------------------------------
  // Printing

  function BitText(base: string, idx: nat): string {
    base + ("[" + (Numeral(idx) + "]"))
  }

  /** The entries of a stepped vector from `i` on, separated by commas. */
  function EntriesText(nu: NameUnit, i: cnt): string
    requires i < nu.idxRange.Size()
    decreases nu.idxRange.Size() - i
  {
    if i == nu.idxRange.Size() - 1 then BitText(nu.base, nu.idxRange.At(i))
    else BitText(nu.base, nu.idxRange.At(i)) + ("," + EntriesText(nu, i + 1))
  }

  function UnitTextV(nu: NameUnit): string {
    if nu.base == "" then ""
    else if !nu.IsVector() then nu.base
    else if nu.idxRange.Size() == 0 then nu.base
    else if nu.idxRange.Size() == 1 then BitText(nu.base, nu.idxRange.start)
    else if nu.idxRange.step == 1 then
      nu.base + ("[" + (Numeral(nu.idxRange.start) + (":" + (Numeral(nu.idxRange.stop) + "]"))))
    else "{" + (EntriesText(nu, 0) + "}")
  }

  function DataTextV(d: Data): string {
    match d
    case Unit(nu) => UnitTextV(nu)
    case Group(na) => NameTextV(na.repList)
  }

  function RepTextV(nr: NameRep): string {
    if nr.mult == 0 then ""
    else if nr.mult == 1 then DataTextV(nr.data)
    else if nr.data.Unit? && !BracketedRep(NameRep(1, nr.data)) then
      "{" + (Numeral(nr.mult) + ("{" + (DataTextV(nr.data) + ("}" + "}"))))
    else "{" + (Numeral(nr.mult) + (DataTextV(nr.data) + "}"))
  }

  function JoinV(reps: seq<NameRep>): string
    decreases reps, 0
  {
    if reps == [] then ""
    else if |reps| == 1 then RepTextV(reps[0])
    else RepTextV(reps[0]) + ("," + JoinV(reps[1..]))
  }

  /** A name with one member prints bare, any other is put in braces. */
  function NameTextV(reps: seq<NameRep>): string
    decreases reps, 1
  {
    if |reps| == 1 then JoinV(reps) else "{" + (JoinV(reps) + "}")
  }

  // ---------------------------------------------------------------------------------------------
  // Reading
  //   expr   = id | id[n] | id[n:m] | '{' n concat '}' | concat
  //   concat = '{' expr {',' expr} '}'

  type Read = Option<(seq<Bit>, string)>

  predicate Starts(c: char, s: string) {
    s != [] && s[0] == c
  }

  function IdRun(s: string): (k: nat)
    ensures k <= |s|
    ensures forall i :: 0 <= i < k ==> IsIdChar(s[i])
  {
    if s == [] || !IsIdChar(s[0]) then 0 else 1 + IdRun(s[1..])
  }

  /** Bits of a part select, from the left index to the right one. */
  function Select(base: string, a: nat, b: nat): (bits: seq<Bit>)
    ensures forall i :: 0 <= i < |bits| ==> bits[i].base == base
  {
    if b >= a then seq(b - a + 1, i requires 0 <= i => Indexed(base, a + i))
    else seq(a - b + 1, i requires 0 <= i <= a - b => Indexed(base, a - i))
  }

  predicate IdBits(bits: seq<Bit>) {
    forall i :: 0 <= i < |bits| ==> IsIdentifier(bits[i].base)
  }

  function ReadSelect(base: string, s: string): (r: Read)
    requires IsIdentifier(base)
    ensures r.Some? ==> |r.value.1| <= |s| && IdBits(r.value.0)
  {
    if !Starts('[', s) then Some(([Scalar(base)], s))
    else
      match ReadNat(s[1..])
      case None => None
      case Some((a, s1)) =>
        if Starts(']', s1) then Some(([Indexed(base, a)], s1[1..]))
        else if !Starts(':', s1) then None
        else
          match ReadNat(s1[1..])
          case None => None
          case Some((b, s2)) => if Starts(']', s2) then Some((Select(base, a, b), s2[1..])) else None
  }

  function ReadExpr(s: string): (r: Read)
    ensures r.Some? ==> |r.value.1| < |s| && IdBits(r.value.0)
    decreases |s|, 1
  {
    if !Starts('{', s) then
      var k := IdRun(s);
      if k == 0 || !IsAlpha(s[0]) then None else ReadSelect(s[..k], s[k..])
    else
      match ReadNat(s[1..])
      case None => ReadConcat(s)
      case Some((n, s1)) =>
        match ReadConcat(s1)
        case None => None
        case Some((bits, s2)) =>
          RepeatIdBits(bits, n);
          if Starts('}', s2) then Some((Repeat(bits, n), s2[1..])) else None
  }

  function ReadConcat(s: string): (r: Read)
    ensures r.Some? ==> |r.value.1| < |s| && IdBits(r.value.0)
    decreases |s|, 0
  {
    if !Starts('{', s) then None
    else
      match ReadItems(s[1..])
      case None => None
      case Some((bits, s1)) => if Starts('}', s1) then Some((bits, s1[1..])) else None
  }

  function ReadItems(s: string): (r: Read)
    ensures r.Some? ==> |r.value.1| < |s| && IdBits(r.value.0)
    decreases |s|, 2
  {
    match ReadExpr(s)
    case None => None
    case Some((bits, s1)) =>
      if !Starts(',', s1) then Some((bits, s1))
      else
        match ReadItems(s1[1..])
        case None => None
        case Some((more, s2)) => Some((bits + more, s2))
  }

  lemma {:induction false} RepeatIdBits(bits: seq<Bit>, n: nat)
    requires IdBits(bits)
    ensures IdBits(Repeat(bits, n))
  {
    if n > 0 {
      RepeatIdBits(bits, n - 1);
    }
  }

  /** What a whole text denotes. */
  function Denotes(s: string): Option<seq<Bit>> {
    match ReadExpr(s)
    case None => None
    case Some((bits, rest)) => if rest == [] then Some(bits) else None
  }

  // ---------------------------------------------------------------------------------------------
  // Reading a unit

  predicate StopV(rest: string) {
    rest == [] || rest[0] == ',' || rest[0] == '}'
  }

  lemma {:induction false} IdRunIs(base: string, rest: string)
    requires forall i :: 0 <= i < |base| ==> IsIdChar(base[i])
    requires rest == [] || !IsIdChar(rest[0])
    ensures IdRun(base + rest) == |base|
  {
    if base == [] {
      assert base + rest == rest;
    } else {
      assert (base + rest)[1..] == base[1..] + rest;
      IdRunIs(base[1..], rest);
    }
  }

  lemma IdReads(base: string, rest: string)
    requires IsIdentifier(base)
    requires rest == [] || !IsIdChar(rest[0])
    ensures ReadExpr(base + rest) == ReadSelect(base, rest)
  {
    IdRunIs(base, rest);
    Cut(base, rest);
  }

  lemma BitReads(base: string, idx: nat, rest: string)
    requires IsIdentifier(base)
    ensures ReadExpr(BitText(base, idx) + rest) == Some(([Indexed(base, idx)], rest))
  {
    var tail := Numeral(idx) + ("]" + rest);
    assert BitText(base, idx) + rest == base + ("[" + tail);
    IdReads(base, "[" + tail);
    Cut("[", tail);
    ReadNatNumeral(idx, "]" + rest);
    Cut("]", rest);
  }

  lemma PartSelectReads(base: string, a: nat, b: nat, rest: string)
    requires IsIdentifier(base)
    ensures ReadExpr(base + ("[" + (Numeral(a) + (":" + (Numeral(b) + "]")))) + rest) == Some((Select(base, a, b), rest))
  {
    var tail := Numeral(b) + ("]" + rest);
    var body := Numeral(a) + (":" + tail);
    assert base + ("[" + (Numeral(a) + (":" + (Numeral(b) + "]")))) + rest == base + ("[" + body);
    IdReads(base, "[" + body);
    Cut("[", body);
    ReadNatNumeral(a, ":" + tail);
    Cut(":", tail);
    ReadNatNumeral(b, "]" + rest);
    Cut("]", rest);
  }

  lemma {:induction false} TimesOne(n: nat)
    ensures Times(n, 1) == n
  {
    if n > 0 {
      TimesOne(n - 1);
    }
  }

  lemma SelectBits(nu: NameUnit)
    requires WfUnit(nu) && nu.idxRange.step == 1
    ensures Select(nu.base, nu.idxRange.start, nu.idxRange.stop) == UnitBits(nu)
  {
    var r := nu.idxRange;
    RangeSize(r);
    TimesOne(r.Size());
    TimesOne(r.Size() - 1);
    forall i: cnt | i < r.Size()
      ensures r.At(i) == if r.stop >= r.start then r.start + i else r.start - i
    {
      AtExact(r, i);
      TimesOne(i);
    }
  }

  // One step of each reader.

  lemma ConcatStep(body: string, ok: bool, bits: seq<Bit>, rest: string)
    requires ReadItems(body) == Outcome(ok, bits, "}" + rest)
    ensures ReadConcat("{" + body) == Outcome(ok, bits, rest)
  {
    Cut("{", body);
    Cut("}", rest);
  }

  lemma PlainStep(body: string)
    requires NoDigitFirst(body)
    ensures ReadExpr("{" + body) == ReadConcat("{" + body)
  {
    Cut("{", body);
    assert ReadNat(body) == None;
  }

  lemma ReplicationStep(body: string, m: nat, s: string, ok: bool, bits: seq<Bit>, rest: string)
    requires ReadNat(body) == Some((m, s)) && ReadConcat(s) == Outcome(ok, bits, "}" + rest)
    ensures ReadExpr("{" + body) == Outcome(ok, Repeat(bits, m), rest)
  {
    Cut("{", body);
    Cut("}", rest);
  }

  lemma ItemsLast(s: string, ok: bool, bits: seq<Bit>, rest: string)
    requires ReadExpr(s) == Outcome(ok, bits, rest) && !Starts(',', rest)
    ensures ReadItems(s) == Outcome(ok, bits, rest)
  {
  }

  function Outcome(ok: bool, bits: seq<Bit>, rest: string): Read {
    if ok then Some((bits, rest)) else None
  }

  /** No rendering starts with a digit, so a digit after a brace always announces a replication. */
  predicate NoDigitFirst(s: string) {
    s != [] && (IsAlpha(s[0]) || s[0] == '{')
  }

  /** The list reader on an expression followed by a comma. */
  lemma ItemsCons(s: string, bits: seq<Bit>, t: string)
    requires ReadExpr(s) == Some((bits, "," + t))
    ensures ReadItems(s) == if ReadItems(t).None? then None else Some((bits + ReadItems(t).value.0, ReadItems(t).value.1))
  {
    Cut(",", t);
  }

  /** Bits of the entries from `i` on. */
  function EntriesBits(nu: NameUnit, i: cnt): seq<Bit>
    requires i < nu.idxRange.Size()
    decreases nu.idxRange.Size() - i
  {
    if i == nu.idxRange.Size() - 1 then [Indexed(nu.base, nu.idxRange.At(i))]
    else [Indexed(nu.base, nu.idxRange.At(i))] + EntriesBits(nu, i + 1)
  }

  lemma {:induction false} EntriesAreBits(nu: NameUnit, i: cnt)
    requires nu.IsVector() && i < nu.idxRange.Size()
    ensures EntriesBits(nu, i) == UnitBits(nu)[i..]
    decreases nu.idxRange.Size() - i
  {
    if i < nu.idxRange.Size() - 1 {
      EntriesAreBits(nu, i + 1);
    }
  }

  lemma {:induction false} EntriesRead(nu: NameUnit, i: cnt, rest: string)
    requires IsIdentifier(nu.base) && i < nu.idxRange.Size()
    requires !Starts(',', rest)
    ensures ReadItems(EntriesText(nu, i) + rest) == Some((EntriesBits(nu, i), rest))
    decreases nu.idxRange.Size() - i
  {
    if i == nu.idxRange.Size() - 1 {
      LastEntry(nu.base, nu.idxRange.At(i), rest);
    } else {
      EntriesRead(nu, i + 1, rest);
      NextEntry(nu.base, nu.idxRange.At(i), EntriesText(nu, i + 1), EntriesBits(nu, i + 1), rest);
    }
  }

  lemma LastEntry(base: string, x: nat, rest: string)
    requires IsIdentifier(base) && !Starts(',', rest)
    ensures ReadItems(BitText(base, x) + rest) == Some(([Indexed(base, x)], rest))
  {
    BitReads(base, x, rest);
    ItemsLast(BitText(base, x) + rest, true, [Indexed(base, x)], rest);
  }

  lemma NextEntry(base: string, x: nat, more: string, bits: seq<Bit>, rest: string)
    requires IsIdentifier(base)
    requires ReadItems(more + rest) == Some((bits, rest))
    ensures ReadItems(BitText(base, x) + ("," + more) + rest) == Some(([Indexed(base, x)] + bits, rest))
  {
    var s := BitText(base, x) + ("," + (more + rest));
    assert BitText(base, x) + ("," + more) + rest == s;
    BitReads(base, x, "," + (more + rest));
    ItemsCons(s, [Indexed(base, x)], more + rest);
  }

  lemma {:induction false} EntriesFirst(nu: NameUnit, i: cnt)
    requires WfUnit(nu) && i < nu.idxRange.Size()
    ensures EntriesText(nu, i) != [] && IsAlpha(EntriesText(nu, i)[0])
  {
  }

  /** A stepped vector of at least two entries prints as a concatenation. */
  lemma SteppedReads(nu: NameUnit, rest: string)
    requires WfUnit(nu) && IsIdentifier(nu.base) && BracketedRep(NameRep(1, Unit(nu)))
    ensures UnitTextV(nu) != [] && UnitTextV(nu)[0] == '{'
    ensures ReadConcat(UnitTextV(nu) + rest) == Some((UnitBits(nu), rest))
    ensures ReadExpr(UnitTextV(nu) + rest) == Some((UnitBits(nu), rest))
  {
    var body := EntriesText(nu, 0) + ("}" + rest);
    assert UnitTextV(nu) + rest == "{" + body;
    EntriesRead(nu, 0, "}" + rest);
    EntriesAreBits(nu, 0);
    assert UnitBits(nu)[0..] == UnitBits(nu);
    ConcatStep(body, true, UnitBits(nu), rest);
    EntriesFirst(nu, 0);
    PlainStep(body);
  }

  lemma UnitReadsV(nu: NameUnit, rest: string)
    requires WfUnit(nu) && IsIdentifier(nu.base) && StopV(rest)
    ensures UnitTextV(nu) != [] && (IsAlpha(UnitTextV(nu)[0]) || BracketedRep(NameRep(1, Unit(nu))))
    ensures ReadExpr(UnitTextV(nu) + rest) == Some((UnitBits(nu), rest))
  {
    var r := nu.idxRange;
    if !nu.IsVector() {
      IdReads(nu.base, rest);
    } else {
      RangeSize(r);
      if r.Size() == 1 {
        AtExact(r, 0);
        BitReads(nu.base, r.start, rest);
        assert UnitBits(nu) == [Indexed(nu.base, r.start)];
      } else if r.step == 1 {
        PartSelectReads(nu.base, r.start, r.stop, rest);
        SelectBits(nu);
      } else {
        SteppedReads(nu, rest);
      }
    }
  }

  // ---------------------------------------------------------------------------------------------
  // Reading repeated names and lists

  predicate IdData(d: Data) {
    match d
    case Unit(nu) => IsIdentifier(nu.base)
    case Group(na) => IdList(na.repList)
  }

  predicate IdRep(nr: NameRep) {
    IdData(nr.data)
  }

  predicate IdList(reps: seq<NameRep>) {
    forall i :: 0 <= i < |reps| ==> IdRep(reps[i])
  }

  lemma {:induction false} FirstChar(nr: NameRep)
    requires WfRep(nr)
    ensures NoDigitFirst(RepTextV(nr)) && NoDigitFirst(DataTextV(nr.data))
    ensures nr.mult > 1 ==> RepTextV(nr)[0] == '{'
    decreases nr
  {
    assert WfData(nr.data);
    match nr.data
    case Unit(nu) =>
    case Group(na) => FirstCharName(na.repList);
  }

  lemma {:induction false} FirstCharName(reps: seq<NameRep>)
    requires WfList(reps) && reps != []
    ensures NoDigitFirst(NameTextV(reps)) && NoDigitFirst(JoinV(reps))
    decreases reps
  {
    FirstChar(reps[0]);
  }

  /** A replication: the text after the count has to read as a plain concatenation. */
  lemma ReplicationReads(m: nat, t: string, rest: string, ok: bool, bits: seq<Bit>)
    requires NoDigitFirst(t)
    requires ReadConcat(t + ("}" + rest)) == Outcome(ok, bits, "}" + rest)
    ensures ReadExpr("{" + (Numeral(m) + (t + "}")) + rest) == Outcome(ok, Repeat(bits, m), rest)
  {
    var body := t + ("}" + rest);
    assert "{" + (Numeral(m) + (t + "}")) + rest == "{" + (Numeral(m) + body);
    ReadNatNumeral(m, body);
    ReplicationStep(Numeral(m) + body, m, body, ok, bits, rest);
  }

  /** Text that starts with a count or with a letter is not a plain concatenation. */
  lemma NotConcat(s: string)
    requires s != [] && (s[0] != '{' || (|s| > 1 && IsDigit(s[1])))
    ensures ReadConcat(s) == None
  {
    if s[0] == '{' {
      assert s[1..][0] == s[1];
      assert ReadExpr(s[1..]) == None;
    }
  }

  lemma RepUnitReadsV(mult: cnt, nu: NameUnit, rest: string)
    requires WfUnit(nu) && IsIdentifier(nu.base) && mult > 1
    ensures ReadExpr(RepTextV(NameRep(mult, Unit(nu))) + rest) == Some((Repeat(UnitBits(nu), mult), rest))
  {
    if BracketedRep(NameRep(1, Unit(nu))) {
      RepSteppedReadsV(mult, nu, rest);
    } else {
      RepPlainReadsV(mult, nu, rest);
    }
  }

  /** A stepped vector brings its own braces. */
  lemma RepSteppedReadsV(mult: cnt, nu: NameUnit, rest: string)
    requires WfUnit(nu) && IsIdentifier(nu.base) && mult > 1 && BracketedRep(NameRep(1, Unit(nu)))
    ensures ReadExpr(RepTextV(NameRep(mult, Unit(nu))) + rest) == Some((Repeat(UnitBits(nu), mult), rest))
  {
    SteppedReads(nu, "}" + rest);
    ReplicationReads(mult, UnitTextV(nu), rest, true, UnitBits(nu));
    assert DataTextV(Unit(nu)) == UnitTextV(nu);
  }

  /** Any other unit is put in braces. */
  lemma RepPlainReadsV(mult: cnt, nu: NameUnit, rest: string)
    requires WfUnit(nu) && IsIdentifier(nu.base) && mult > 1 && !BracketedRep(NameRep(1, Unit(nu)))
    ensures ReadExpr(RepTextV(NameRep(mult, Unit(nu))) + rest) == Some((Repeat(UnitBits(nu), mult), rest))
  {
    var t := UnitTextV(nu);
    var braced := "{" + (t + "}");
    BracedUnitReads(nu, "}" + rest);
    ReplicationReads(mult, braced, rest, true, UnitBits(nu));
    assert DataTextV(Unit(nu)) == t;
    assert "{" + (t + ("}" + "}")) == braced + "}";
  }

  lemma BracedUnitReads(nu: NameUnit, rest: string)
    requires WfUnit(nu) && IsIdentifier(nu.base)
    ensures ReadConcat("{" + (UnitTextV(nu) + "}") + rest) == Some((UnitBits(nu), rest))
  {
    var t := UnitTextV(nu);
    var inner := t + ("}" + rest);
    UnitReadsV(nu, "}" + rest);
    ItemsLast(inner, true, UnitBits(nu), "}" + rest);
    ConcatStep(inner, true, UnitBits(nu), rest);
    assert "{" + (t + "}") + rest == "{" + inner;
  }

  lemma {:induction false} RepReadsV(nr: NameRep, rest: string)
    requires WfRep(nr) && IdRep(nr) && StopV(rest)
    ensures ReadExpr(RepTextV(nr) + rest) == Outcome(VerilogOkRep(nr), RepBits(nr), rest)
    decreases nr, 3
  {
    assert WfData(nr.data) && IdData(nr.data);
    RepeatOnce(DataBits(nr.data));
    match nr.data
    case Unit(nu) =>
      if nr.mult == 1 {
        UnitReadsV(nu, rest);
      } else {
        RepUnitReadsV(nr.mult, nu, rest);
      }
    case Group(na) =>
      if nr.mult == 1 {
        NameReadsV(na.repList, rest);
      } else {
        ConcatReadsV(na.repList, "}" + rest);
        FirstCharName(na.repList);
        ReplicationReads(nr.mult, NameTextV(na.repList), rest, Bracketed(na.repList) && VerilogOkList(na.repList), DataBits(nr.data));
      }
  }

  lemma {:induction false} ItemsReadV(reps: seq<NameRep>, rest: string)
    requires WfList(reps) && IdList(reps) && reps != [] && Starts('}', rest)
    ensures ReadItems(JoinV(reps) + rest) == Outcome(VerilogOkList(reps), ListBits(reps), rest)
    decreases reps, 0
  {
    if |reps| == 1 {
      RepReadsV(reps[0], rest);
      ItemsLast(RepTextV(reps[0]) + rest, VerilogOkRep(reps[0]), RepBits(reps[0]), rest);
      assert reps[1..] == [];
      assert ListBits(reps) == RepBits(reps[0]);
    } else {
      var t := JoinV(reps[1..]) + rest;
      assert JoinV(reps) + rest == RepTextV(reps[0]) + ("," + t);
      RepReadsV(reps[0], "," + t);
      ItemsReadV(reps[1..], rest);
      if VerilogOkRep(reps[0]) {
        ItemsCons(RepTextV(reps[0]) + ("," + t), RepBits(reps[0]), t);
      }
      assert VerilogOkList(reps) <==> VerilogOkRep(reps[0]) && VerilogOkList(reps[1..]);
    }
  }

  lemma {:induction false} BracesReadV(reps: seq<NameRep>, rest: string)
    requires WfList(reps) && IdList(reps) && |reps| >= 2
    ensures ReadConcat(NameTextV(reps) + rest) == Outcome(VerilogOkList(reps), ListBits(reps), rest)
    ensures ReadExpr(NameTextV(reps) + rest) == Outcome(VerilogOkList(reps), ListBits(reps), rest)
    decreases reps, 1
  {
    var body := JoinV(reps) + ("}" + rest);
    assert NameTextV(reps) + rest == "{" + body;
    ItemsReadV(reps, "}" + rest);
    ConcatStep(body, VerilogOkList(reps), ListBits(reps), rest);
    FirstCharName(reps);
    PlainStep(body);
  }

  lemma {:induction false} NameReadsV(reps: seq<NameRep>, rest: string)
    requires WfList(reps) && IdList(reps) && reps != [] && StopV(rest)
    ensures ReadExpr(NameTextV(reps) + rest) == Outcome(VerilogOkList(reps), ListBits(reps), rest)
    decreases reps, 2
  {
    if |reps| == 1 {
      RepReadsV(reps[0], rest);
      assert reps[1..] == [];
      assert ListBits(reps) == RepBits(reps[0]);
    } else {
      BracesReadV(reps, rest);
    }
  }

  lemma {:induction false} ConcatReadsV(reps: seq<NameRep>, rest: string)
    requires WfList(reps) && IdList(reps) && reps != []
    ensures ReadConcat(NameTextV(reps) + rest) == Outcome(Bracketed(reps) && VerilogOkList(reps), ListBits(reps), rest)
    decreases reps, 2
  {
    if |reps| >= 2 {
      BracesReadV(reps, rest);
    } else {
      ConcatRepReadsV(reps[0], rest);
      assert NameTextV(reps) == RepTextV(reps[0]);
      assert reps[1..] == [];
      assert ListBits(reps) == RepBits(reps[0]);
    }
  }

  lemma {:induction false} ConcatRepReadsV(nr: NameRep, rest: string)
    requires WfRep(nr) && IdRep(nr)
    ensures ReadConcat(RepTextV(nr) + rest) == Outcome(BracketedRep(nr) && VerilogOkRep(nr), RepBits(nr), rest)
    decreases nr, 3
  {
    assert WfData(nr.data) && IdData(nr.data);
    FirstChar(nr);
    RepeatOnce(DataBits(nr.data));
    if nr.mult > 1 {
      assert RepTextV(nr)[0] == '{' && IsDigit(RepTextV(nr)[1]);
      NotConcat(RepTextV(nr) + rest);
    } else {
      assert RepTextV(nr) == DataTextV(nr.data);
      match nr.data
      case Unit(nu) =>
        if BracketedRep(nr) {
          SteppedReads(nu, rest);
        } else {
          UnitReadsV(nu, []);
          NotConcat(RepTextV(nr) + rest);
        }
      case Group(na) => ConcatReadsV(na.repList, rest);
    }
  }

  // ---------------------------------------------------------------------------------------------
  // Main result

  lemma {:induction false} IdDataBits(d: Data)
    requires WfData(d) && IdBits(DataBits(d))
    ensures IdData(d)
    decreases d
  {
    match d
    case Unit(nu) =>
      WfUnitFits(nu);
      assert IsIdentifier(UnitBits(nu)[0].base);
    case Group(na) =>
      forall i | 0 <= i < |na.repList|
        ensures IdRep(na.repList[i])
      {
        var nr := na.repList[i];
        assert WfRep(nr);
        PrefixBits(na.repList, i);
        assert na.repList[i..][0] == nr;
        var bits := DataBits(nr.data);
        assert RepBits(nr) == bits + Repeat(bits, nr.mult - 1);
        assert bits == ListBits(na.repList)[|ListBits(na.repList[..i])|..][..|bits|];
        IdDataBits(nr.data);
      }
  }

  /** The Verilog text of a well-formed name denotes its bit list if and only if base names are
      identifiers and every group under a multiplier above 1 is bracketed. */
  lemma VerilogDenotesBits(na: Name)
    requires WfName(na)
    ensures Denotes(NameTextV(na.repList)) == Some(NameBits(na)) <==> VerilogOkList(na.repList)
  {
    if IdList(na.repList) {
      NameReadsV(na.repList, []);
      assert NameTextV(na.repList) + [] == NameTextV(na.repList);
    } else {
      if Denotes(NameTextV(na.repList)) == Some(NameBits(na)) {
        IdDataBits(Group(na));
      }
      if VerilogOkList(na.repList) {
        OkIsId(Group(na));
      }
    }
  }

  lemma {:induction false} OkIsId(d: Data)
    requires VerilogOkData(d)
    ensures IdData(d)
    decreases d
  {
    match d
    case Unit(_) =>
    case Group(na) =>
      forall i | 0 <= i < |na.repList|
        ensures IdRep(na.repList[i])
      {
        assert VerilogOkRep(na.repList[i]);
        OkIsId(na.repList[i].data);
      }
  }

  /** A multiplied group whose only member is multiplied: its text is not a Verilog expression. */
  lemma NestedMultiplier(na: Name, inner: Name, a: NameUnit)
    requires a == NameUnit("a", Range(0, 0, 0)) && inner == Name([NameRep(2, Unit(a))])
    requires na == Name([NameRep(3, Group(inner))])
    ensures WfName(na) && ListText(na.repList) == "<*3>(<*2>a)"
    ensures NameTextV(na.repList) == "{3{2{a}}}" && Denotes(NameTextV(na.repList)) == None
  {
    var two, three := inner.repList[0], na.repList[0];
    assert WfUnit(a);
    assert WfRep(two);
    assert WfRep(three);
    NestedTexts(na, inner, a);
    assert !BracketedRep(two);
    assert !Bracketed(inner.repList) && three.data == Group(inner) && three.mult > 1;
    assert !VerilogOkRep(three);
    assert IdRep(two);
    assert IdList(inner.repList);
    assert IdRep(three);
    NameReadsV(na.repList, []);
    assert NameTextV(na.repList) + [] == NameTextV(na.repList);
  }

  lemma NestedTexts(na: Name, inner: Name, a: NameUnit)
    requires a == NameUnit("a", Range(0, 0, 0)) && inner == Name([NameRep(2, Unit(a))])
    requires na == Name([NameRep(3, Group(inner))])
    ensures ListText(na.repList) == "<*3>(<*2>a)" && NameTextV(na.repList) == "{3{2{a}}}"
  {
    var two, three := inner.repList[0], na.repList[0];
    assert Numeral(2) == "2" && Numeral(3) == "3";
    assert ListText(inner.repList) == RepText(two) == "<*2>a";
    assert three.data == Group(inner) && three.mult == 3;
    assert DataText(three.data) == "<*2>a" && TagText(3) == "<*3>";
    assert ListText(na.repList) == RepText(three) == TagText(3) + ("(" + (DataText(three.data) + ")"));
    assert NameTextV(inner.repList) == RepTextV(two) == "{2{a}}";
    assert DataTextV(three.data) == "{2{a}}";
    assert NameTextV(na.repList) == RepTextV(three) == "{" + (Numeral(3) + (DataTextV(three.data) + "}"));
  }
}
