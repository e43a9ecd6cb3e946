/** The CDBA text form of a name: `base<start:stop:step>`, `<*mult>...`, comma-separated lists. */
module CdbaText {
  import opened Decimal
  import opened NameAst

  function UnitText(nu: NameUnit): string {
    if nu.base == "" then ""
    else if !nu.IsVector() then nu.base
    else nu.base + RangeText(nu.idxRange)
  }

  function RangeText(r: Range): string {
    if r.Size() == 1 then "<" + (Numeral(r.start) + ">")
    else if r.step == 1 then "<" + (Numeral(r.start) + (":" + (Numeral(r.stop) + ">")))
    else "<" + (Numeral(r.start) + (":" + (Numeral(r.stop) + (":" + (Numeral(r.step) + ">")))))
  }

  function TagText(mult: nat): string {
    "<*" + (Numeral(mult) + ">")
  }

  function DataText(d: Data): string {
    match d
    case Unit(nu) => UnitText(nu)
    case Group(na) => ListText(na.repList)
  }

  function RepText(nr: NameRep): string {
    if nr.mult == 0 then ""
    else if nr.mult == 1 then DataText(nr.data)
    else if nr.data.Unit? then TagText(nr.mult) + DataText(nr.data)
    else TagText(nr.mult) + ("(" + (DataText(nr.data) + ")"))
  }

  function ListText(reps: seq<NameRep>): string {
    if reps == [] then ""
    else if |reps| == 1 then RepText(reps[0])
    else RepText(reps[0]) + ("," + ListText(reps[1..]))
  }

  lemma {:induction false} ListTextAppend(a: seq<NameRep>, b: seq<NameRep>)
    requires a != [] && b != []
    ensures ListText(a + b) == ListText(a) + ("," + ListText(b))
  {
    if |a| > 1 {
      assert (a + b)[1..] == a[1..] + b;
      ListTextAppend(a[1..], b);
      assert ListText(a + b) == RepText(a[0]) + ("," + ListText(a[1..] + b));
    } else {
      assert (a + b)[1..] == b;
    }
  }

  /** The accumulating loop of name_to_string_helper. */
  method NameToString(na: Name) returns (ans: string)
    ensures ans == ListText(na.repList)
    decreases na
  {
    if na.repList == [] {
      return "";
    }
    ans := RepToString(na.repList[0]);
    for idx := 1 to |na.repList|
      invariant ans == ListText(na.repList[..idx])
    {
      ans := ans + ",";
      var s := RepToString(na.repList[idx]);
      ans := ans + s;
      assert na.repList[..idx + 1] == na.repList[..idx] + [na.repList[idx]];
      ListTextAppend(na.repList[..idx], [na.repList[idx]]);
    }
    assert na.repList[..|na.repList|] == na.repList;
  }

  method RepToString(nr: NameRep) returns (ans: string)
    ensures ans == RepText(nr)
    decreases nr
  {
    if nr.mult == 0 {
      return "";
    }
    match nr.data
    case Unit(nu) =>
      ans := if nr.mult == 1 then UnitText(nu) else TagText(nr.mult) + UnitText(nu);
    case Group(na) =>
      var base := NameToString(na);
      ans := if nr.mult == 1 then base else TagText(nr.mult) + ("(" + (base + ")"));
  }
}
