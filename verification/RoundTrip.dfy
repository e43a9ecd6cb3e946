/** Printing a name in CDBA form and parsing the text back.

    The tree that comes back may differ (a group under the multiplier 1 is spliced into its list, a
    one-entry range loses its stop and step), but the text is always accepted, all of it is
    consumed, and the bits are the same.
 */
module RoundTrip {
  import opened Counts
  import opened Sequences
  import opened Decimal
  import opened NameAst
  import opened CdbaText
  import opened NameGrammar

  /** What can follow a name inside a longer text. */
  predicate Stop(rest: string) {
    rest == [] || rest[0] == ',' || rest[0] == ')'
  }

  lemma Cut(a: string, b: string)
    ensures (a + b)[|a|..] == b && (a + b)[..|a|] == a
  {
  }

  // ---------------------------------------------------------------------------------------------
  // Ranges and units

  /** The range a printed range is read back as. */
  function ReadBack(r: Range): Range {
    if r.Size() == 1 then Range(r.start, r.start, 1) else r
  }

  lemma ReadBackBits(nu: NameUnit)
    requires WfUnit(nu) && nu.IsVector()
    ensures UnitBits(NameUnit(nu.base, ReadBack(nu.idxRange))) == UnitBits(nu)
  {
    RangeSize(nu.idxRange);
    if nu.idxRange.Size() == 1 {
      AtExact(nu.idxRange, 0);
      var r := Range(nu.idxRange.start, nu.idxRange.start, 1);
      RangeSize(r);
      AtExact(r, 0);
      assert r.Size() == 1;
    }
  }

  /** The text between the brackets, after the start. */
  function TailText(r: Range): string {
    if r.Size() == 1 then ""
    else if r.step == 1 then ":" + Numeral(r.stop)
    else ":" + (Numeral(r.stop) + (":" + Numeral(r.step)))
  }

  lemma BodyReads(r: Range, tail: string)
    requires r.start < TWO32 && r.stop < TWO32 && 1 <= r.step < TWO32
    requires tail != [] && tail[0] == '>'
    ensures RangeBody(Numeral(r.start) + (TailText(r) + tail)) == Match(ReadBack(r), tail)
  {
    ReadNumeral(r.start, TailText(r) + tail);
    if r.Size() == 1 {
      assert TailText(r) + tail == tail;
    } else if r.step == 1 {
      SpanReads(r, tail);
    } else {
      StepReads(r, tail);
    }
  }

  lemma SpanReads(r: Range, tail: string)
    requires r.start < TWO32 && r.stop < TWO32 && r.step == 1 && r.Size() != 1
    requires tail != [] && tail[0] == '>'
    ensures RangeBody(Numeral(r.start) + (TailText(r) + tail)) == Match(r, tail)
  {
    SpanTail(r, tail);
    ReadNumeral(r.start, TailText(r) + tail);
    Cut(":", Numeral(r.stop) + tail);
    ReadNumeral(r.stop, tail);
  }

  lemma SpanTail(r: Range, tail: string)
    requires r.Size() != 1 && r.step == 1
    ensures TailText(r) + tail == ":" + (Numeral(r.stop) + tail)
  {
    AssocText(":", Numeral(r.stop), tail);
  }

  lemma AssocText(a: string, b: string, c: string)
    ensures a + b + c == a + (b + c)
  {
  }

  lemma StepReads(r: Range, tail: string)
    requires r.start < TWO32 && r.stop < TWO32 && 1 < r.step < TWO32 && r.Size() != 1
    requires tail != [] && tail[0] == '>'
    ensures RangeBody(Numeral(r.start) + (TailText(r) + tail)) == Match(r, tail)
  {
    ReadNumeral(r.start, TailText(r) + tail);
    StepTail(r, tail);
    var last := Numeral(r.step) + tail;
    Cut(":", Numeral(r.stop) + (":" + last));
    ReadNumeral(r.stop, ":" + last);
    Cut(":", last);
    ReadNumeral(r.step, tail);
  }

  lemma StepTail(r: Range, tail: string)
    requires r.Size() != 1 && r.step != 1
    ensures TailText(r) + tail == ":" + (Numeral(r.stop) + (":" + (Numeral(r.step) + tail)))
  {
  }

  lemma RangeReads(r: Range, rest: string)
    requires r.start < TWO32 && r.stop < TWO32 && 1 <= r.step < TWO32
    ensures ParseRange(RangeText(r) + rest) == Match(ReadBack(r), rest)
  {
    var tail := ">" + rest;
    var body := Numeral(r.start) + (TailText(r) + tail);
    assert RangeText(r) + rest == "<" + body;
    Cut("<", body);
    Cut(">", rest);
    BodyReads(r, tail);
  }

  lemma {:induction false} NameRunIs(base: string, rest: string)
    requires forall i :: 0 <= i < |base| ==> IsNameChar(base[i])
    requires rest == [] || !IsNameChar(rest[0])
    ensures NameRun(base + rest) == |base|
  {
    if base == [] {
      assert base + rest == rest;
    } else {
      assert (base + rest)[1..] == base[1..] + rest;
      NameRunIs(base[1..], rest);
    }
  }

  lemma UnitReads(nu: NameUnit, rest: string)
    requires WfUnit(nu) && Stop(rest)
    ensures var p := ParseUnit(UnitText(nu) + rest);
      p.Match? && p.rest == rest && UnitBits(p.value) == UnitBits(nu)
    ensures UnitText(nu) != [] && IsAlpha(UnitText(nu)[0])
  {
    var tail := if nu.IsVector() then RangeText(nu.idxRange) + rest else rest;
    assert UnitText(nu) + rest == nu.base + tail;
    NameRunIs(nu.base, tail);
    Cut(nu.base, tail);
    if nu.IsVector() {
      RangeReads(nu.idxRange, rest);
      ReadBackBits(nu);
    }
  }

  // ---------------------------------------------------------------------------------------------
  // Flattening: a group under the multiplier 1 prints exactly like its members in place

  function Flat(reps: seq<NameRep>): seq<NameRep> {
    if reps == [] then [] else FlatRep(reps[0]) + Flat(reps[1..])
  }

  function FlatRep(nr: NameRep): seq<NameRep> {
    if nr.mult != 1 then [nr]
    else match nr.data
      case Unit(_) => [nr]
      case Group(na) => Flat(na.repList)
  }

  predicate IsAtom(nr: NameRep) {
    WfRep(nr) && (nr.mult > 1 || nr.data.Unit?)
  }

  predicate Atoms(reps: seq<NameRep>) {
    reps != [] && forall i :: 0 <= i < |reps| ==> IsAtom(reps[i])
  }

  lemma AtomsAppend(a: seq<NameRep>, b: seq<NameRep>)
    requires Atoms(a) && Atoms(b)
    ensures Atoms(a + b)
    ensures ListText(a + b) == ListText(a) + ("," + ListText(b)) && ListBits(a + b) == ListBits(a) + ListBits(b)
  {
    ListTextAppend(a, b);
    ListBitsAppend(a, b);
  }

  lemma {:induction false} FlatMeaning(reps: seq<NameRep>)
    requires WfList(reps) && reps != []
    ensures Atoms(Flat(reps))
    ensures ListText(Flat(reps)) == ListText(reps) && ListBits(Flat(reps)) == ListBits(reps)
    decreases reps
  {
    FlatRepMeaning(reps[0]);
    if |reps| > 1 {
      FlatMeaning(reps[1..]);
      AtomsAppend(FlatRep(reps[0]), Flat(reps[1..]));
    } else {
      assert reps[1..] == [];
      assert Flat(reps) == FlatRep(reps[0]);
      assert ListBits(reps) == RepBits(reps[0]);
    }
  }

  lemma {:induction false} FlatRepMeaning(nr: NameRep)
    requires WfRep(nr)
    ensures Atoms(FlatRep(nr))
    ensures ListText(FlatRep(nr)) == RepText(nr) && ListBits(FlatRep(nr)) == RepBits(nr)
    decreases nr
  {
    if nr.mult == 1 {
      RepeatOnce(DataBits(nr.data));
      match nr.data
      case Unit(_) =>
        assert [nr][1..] == [];
      case Group(na) => FlatMeaning(na.repList);
    } else {
      assert [nr][1..] == [];
    }
  }

  // ---------------------------------------------------------------------------------------------
  // Reading an atom and reading a list of atoms

  lemma TagReads(mult: cnt, rest: string)
    requires 1 <= mult < TWO32
    ensures MultTag(TagText(mult) + rest) == Match(mult, rest)
  {
    assert TagText(mult) + rest == "<*" + (Numeral(mult) + (">" + rest));
    Cut("<*", Numeral(mult) + (">" + rest));
    assert (TagText(mult) + rest)[..2] == "<*";
    ReadNumeral(mult, ">" + rest);
    Cut(">", rest);
  }

  lemma NoTag(s: string)
    requires s != [] && IsAlpha(s[0])
    ensures MultTag(s) == NoMatch
  {
  }

  // The three ways a repeated name is recognised.

  lemma PlainUnit(s: string)
    requires MultTag(s) == NoMatch && ParseUnit(s).Match?
    ensures ParseRep(s) == Match(NameRep(1, Unit(ParseUnit(s).value)), ParseUnit(s).rest)
  {
  }

  lemma TaggedUnit(s: string, m: cnt, s1: string)
    requires MultTag(s) == Match(m, s1) && GrpName(s1) == NoMatch && ParseUnit(s1).Match?
    ensures ParseRep(s) == Match(NameRep(m, Unit(ParseUnit(s1).value)), ParseUnit(s1).rest)
  {
  }

  lemma TaggedGroup(s: string, m: cnt, s1: string)
    requires MultTag(s) == Match(m, s1) && GrpName(s1).Match?
    ensures ParseRep(s) == Match(NameRep(m, GrpName(s1).value), GrpName(s1).rest)
  {
  }

  lemma PlainUnitReads(nu: NameUnit, rest: string)
    requires WfUnit(nu) && Stop(rest)
    ensures var p := ParseRep(UnitText(nu) + rest);
      p.Match? && p.rest == rest && RepBits(p.value) == UnitBits(nu)
  {
    UnitReads(nu, rest);
    NoTag(UnitText(nu) + rest);
    PlainUnit(UnitText(nu) + rest);
    RepeatOnce(UnitBits(nu));
  }

  lemma TaggedUnitReads(mult: cnt, nu: NameUnit, rest: string)
    requires WfUnit(nu) && Stop(rest) && 1 <= mult < TWO32
    ensures var p := ParseRep(TagText(mult) + (UnitText(nu) + rest));
      p.Match? && p.rest == rest && RepBits(p.value) == Repeat(UnitBits(nu), mult)
  {
    var text := UnitText(nu) + rest;
    UnitReads(nu, rest);
    TagReads(mult, text);
    NoGroup(text);
    TaggedUnit(TagText(mult) + text, mult, text);
  }

  lemma NoGroup(s: string)
    requires s != [] && IsAlpha(s[0])
    ensures GrpName(s) == NoMatch
  {
  }

  /** Text of a group: either alternative of the grammar gives the bits of the group. */
  lemma GroupReads(fs: seq<NameRep>, rest: string)
    requires Atoms(fs)
    requires var p := RepList(ListText(fs) + (")" + rest)); p.Match? && p.rest == ")" + rest && ListBits(p.value) == ListBits(fs)
    ensures var g := GrpName("(" + (ListText(fs) + (")" + rest)));
      g.Match? && g.rest == rest && DataBits(g.value) == ListBits(fs)
  {
    var inner := ListText(fs) + (")" + rest);
    Cut("(", inner);
    Cut(")", rest);
    FirstAlternative(fs, ")" + rest);
  }

  lemma GroupAtomReads(nr: NameRep, text: string, rest: string)
    requires IsAtom(nr) && RepText(nr) + rest == TagText(nr.mult) + text
    requires GrpName(text).Match? && GrpName(text).rest == rest && DataBits(GrpName(text).value) == DataBits(nr.data)
    ensures var p := ParseRep(RepText(nr) + rest);
      p.Match? && p.rest == rest && RepBits(p.value) == RepBits(nr)
  {
    TagReads(nr.mult, text);
    TaggedGroup(TagText(nr.mult) + text, nr.mult, text);
  }

  /** The first alternative inside parentheses takes the group only when the text up to the
      parenthesis is a single unit. */
  lemma FirstAlternative(fs: seq<NameRep>, rest: string)
    requires Atoms(fs) && rest != [] && rest[0] == ')'
    ensures var u := ParseUnit(ListText(fs) + rest);
      u.Match? && Lit(')', u.rest) ==> u.rest == rest && UnitBits(u.value) == ListBits(fs)
  {
    var nr := fs[0];
    assert IsAtom(nr);
    var tail := if |fs| == 1 then rest else "," + (ListText(fs[1..]) + rest);
    assert ListText(fs) + rest == RepText(nr) + tail;
    if nr.mult == 1 {
      assert WfData(nr.data);
      assert RepText(nr) == UnitText(nr.data.nu);
      UnitReads(nr.data.nu, tail);
      RepeatOnce(UnitBits(nr.data.nu));
      assert DataBits(nr.data) == UnitBits(nr.data.nu);
      assert RepBits(nr) == UnitBits(nr.data.nu);
      if |fs| == 1 {
        assert fs[1..] == [];
        assert ListBits(fs) == RepBits(nr) + ListBits([]);
      }
    } else {
      assert (RepText(nr) + tail)[0] == '<';
    }
  }

  lemma LastReads(s: string)
    requires ParseRep(s).Match? && !Lit(',', ParseRep(s).rest)
    ensures RepList(s).Match? && RepList(s).rest == ParseRep(s).rest
    ensures ListBits(RepList(s).value) == RepBits(ParseRep(s).value)
  {
    var v := ParseRep(s).value;
    assert [v][1..] == [];
    assert ListBits([v]) == RepBits(v) + ListBits([]);
  }

  lemma ConsReads(s: string, t: string)
    requires ParseRep(s).Match? && ParseRep(s).rest == "," + t && RepList(t).Match?
    ensures RepList(s).Match? && RepList(s).rest == RepList(t).rest
    ensures ListBits(RepList(s).value) == RepBits(ParseRep(s).value) + ListBits(RepList(t).value)
  {
    Cut(",", t);
    var v, more := ParseRep(s).value, RepList(t).value;
    assert RepList(s) == Match([v] + more, RepList(t).rest);
    assert ([v] + more)[1..] == more;
  }

  lemma {:induction false} ListReads(fs: seq<NameRep>, rest: string)
    requires Atoms(fs) && Stop(rest) && !Lit(',', rest)
    ensures var p := RepList(ListText(fs) + rest);
      p.Match? && p.rest == rest && ListBits(p.value) == ListBits(fs)
    decreases |ListText(fs)|, 1
  {
    var nr := fs[0];
    assert IsAtom(nr);
    if |fs| == 1 {
      assert fs[1..] == [];
      AtomReads(nr, rest);
      LastReads(RepText(nr) + rest);
    } else {
      var t := ListText(fs[1..]) + rest;
      AssocText(RepText(nr), "," + ListText(fs[1..]), rest);
      AssocText(",", ListText(fs[1..]), rest);
      AtomReads(nr, "," + t);
      ListReads(fs[1..], rest);
      ConsReads(RepText(nr) + ("," + t), t);
    }
  }

  lemma {:induction false} AtomReads(nr: NameRep, rest: string)
    requires IsAtom(nr) && Stop(rest)
    ensures var p := ParseRep(RepText(nr) + rest);
      p.Match? && p.rest == rest && RepBits(p.value) == RepBits(nr)
    decreases |RepText(nr)|, 0
  {
    assert WfData(nr.data);
    match nr.data
    case Unit(nu) => UnitAtomReads(nr, nu, rest);
    case Group(na) =>
      var fs := Flat(na.repList);
      FlatMeaning(na.repList);
      GroupText(nr, fs, rest);
      ListReads(fs, ")" + rest);
      GroupReads(fs, rest);
      GroupAtomReads(nr, "(" + (ListText(fs) + (")" + rest)), rest);
  }

  lemma UnitAtomReads(nr: NameRep, nu: NameUnit, rest: string)
    requires IsAtom(nr) && nr.data == Unit(nu) && WfUnit(nu) && Stop(rest)
    ensures var p := ParseRep(RepText(nr) + rest);
      p.Match? && p.rest == rest && RepBits(p.value) == RepBits(nr)
  {
    RepeatOnce(UnitBits(nu));
    if nr.mult == 1 {
      PlainUnitReads(nu, rest);
    } else {
      assert RepText(nr) + rest == TagText(nr.mult) + (UnitText(nu) + rest);
      TaggedUnitReads(nr.mult, nu, rest);
    }
  }

  lemma GroupText(nr: NameRep, fs: seq<NameRep>, rest: string)
    requires nr.mult > 1 && nr.data.Group? && ListText(fs) == ListText(nr.data.na.repList)
    ensures RepText(nr) + rest == TagText(nr.mult) + ("(" + (ListText(fs) + (")" + rest)))
    ensures |ListText(fs)| < |RepText(nr)|
  {
    assert RepText(nr) == TagText(nr.mult) + ("(" + (ListText(fs) + ")"));
  }

  // ---------------------------------------------------------------------------------------------
  // Main results

  /** Print then parse: accepted, all input consumed, same bits. */
  lemma PrintParse(na: Name)
    requires WfName(na)
    ensures NameOf(ListText(na.repList)).Ok?
    ensures NameBits(NameOf(ListText(na.repList)).value) == NameBits(na)
  {
    var fs := Flat(na.repList);
    FlatMeaning(na.repList);
    ListReads(fs, []);
    assert ListText(fs) + [] == ListText(fs);
  }

  /** Any accepted text can be parsed, printed and parsed again without changing its bits. */
  lemma ParsePrintParse(source: string)
    requires NameOf(source).Ok?
    ensures var printed := ListText(NameOf(source).value.repList);
      NameOf(printed).Ok? && NameBits(NameOf(printed).value) == NameBits(NameOf(source).value)
  {
    PrintParse(NameOf(source).value);
  }

  /** The bound on numbers is needed: a multiplier of 2^32 or more prints as text the grammar rejects. */
  lemma LargeMultiplierRejected(nr: NameRep)
    requires nr.mult >= TWO32
    ensures NameOf(ListText([nr])) == Err
  {
    var rest := if nr.data.Unit? then DataText(nr.data) else "(" + (DataText(nr.data) + ")");
    var text := TagText(nr.mult) + rest;
    assert ListText([nr]) == RepText(nr) == text;
    TagThrows(nr.mult, rest);
    assert ParseRep(text) == NoMatch;
    assert RepList(text) == NoMatch;
  }

  lemma TagThrows(mult: cnt, rest: string)
    requires mult >= TWO32
    ensures MultTag(TagText(mult) + rest) == Throw
  {
    var tail := Numeral(mult) + (">" + rest);
    assert TagText(mult) + rest == "<*" + tail;
    Cut("<*", tail);
    assert (TagText(mult) + rest)[..2] == "<*";
    ReadNumeral(mult, ">" + rest);
  }
}
