/** The Spirit X3 grammar of names (range_def.h, name_unit_def.h, name_def.h, parsers.h).

    A sequence joined by `>>` backtracks; one joined by `>` throws when its right side does not
    match.  Every rule carries an error handler that answers `fail`, so a throw anywhere inside a
    rule makes that whole rule a plain mismatch, without trying the rule's other alternatives.
 */
module NameGrammar {
  import opened Counts
  import opened Decimal
  import opened NameAst

  datatype Parsed<+T> = Match(value: T, rest: string) | NoMatch | Throw

  /** The error handler at the boundary of a rule. */
  function Rule<T>(p: Parsed<T>): (r: Parsed<T>)
    ensures !r.Throw?
  {
    if p.Throw? then NoMatch else p
  }

  predicate Lit(c: char, s: string) {
    s != [] && s[0] == c
  }

  // ---------------------------------------------------------------------------------------------
  // range = '<' > uint32 >> -(':' > uint32 >> -(':' > uint32[nonzero])) > '>'

  function RangeBody(s: string): (p: Parsed<Range>)
    ensures p.Match? ==> |p.rest| < |s| && p.value.start < TWO32 && p.value.stop < TWO32 && 1 <= p.value.step < TWO32
  {
    match ReadUint32(s)
    case None => NoMatch
    case Some((a, s1)) =>
      if !Lit(':', s1) then Match(Range(a, a, 1), s1)
      else
        match ReadUint32(s1[1..])
        case None => Throw
        case Some((b, s2)) =>
          if !Lit(':', s2) then Match(Range(a, b, 1), s2)
          else
            match ReadUint32(s2[1..])
            case None => Throw
            case Some((c, s3)) => if c == 0 then Throw else Match(Range(a, b, c), s3)
  }

  function ParseRange(s: string): (p: Parsed<Range>)
    ensures p.Match? ==> |p.rest| < |s| && p.value.start < TWO32 && p.value.stop < TWO32 && 1 <= p.value.step < TWO32
    ensures !p.Throw?
  {
    Rule(
      if !Lit('<', s) then NoMatch
      else
        match RangeBody(s[1..])
        case NoMatch => Throw
        case Throw => Throw
        case Match(r, s1) => if Lit('>', s1) then Match(r, s1[1..]) else Throw)
  }

  // ---------------------------------------------------------------------------------------------
  // name_unit = name_string[starts with a letter] >> -range

  /** Length of the longest run of name characters. */
  function NameRun(s: string): (k: nat)
    ensures k <= |s|
    ensures forall i :: 0 <= i < k ==> IsNameChar(s[i])
  {
    if s == [] || !IsNameChar(s[0]) then 0 else 1 + NameRun(s[1..])
  }

  function ParseUnit(s: string): (p: Parsed<NameUnit>)
    ensures p.Match? ==> |p.rest| < |s| && WfUnit(p.value)
    ensures !p.Throw?
  {
    var k := NameRun(s);
    Rule(
      if k == 0 || !IsAlpha(s[0]) then NoMatch
      else
        var r := ParseRange(s[k..]);
        if r.Match? then Match(NameUnit(s[..k], r.value), r.rest)
        else Match(NameUnit(s[..k], Range(0, 0, 0)), s[k..]))
  }

  // ---------------------------------------------------------------------------------------------
  // mult_tag = "<*" > uint32[nonzero] > '>'
  // grp_name = '(' > ((name_unit >> ')') | (name > ')'))
  // name_rep = (mult_tag >> grp_name) | (-mult_tag > name_unit)
  // name     = name_rep % ','

  function MultTag(s: string): (p: Parsed<cnt>)
    ensures p.Match? ==> |p.rest| < |s| && 1 <= p.value < TWO32
  {
    if !("<*" <= s) then NoMatch
    else
      match ReadUint32(s[2..])
      case None => Throw
      case Some((m, s1)) => if m == 0 || !Lit('>', s1) then Throw else Match(m, s1[1..])
  }

  function GrpName(s: string): (p: Parsed<Data>)
    ensures p.Match? ==> |p.rest| < |s| && WfData(p.value)
    decreases |s|, 0
  {
    if !Lit('(', s) then NoMatch
    else
      var u := ParseUnit(s[1..]);
      if u.Match? && Lit(')', u.rest) then Match(Unit(u.value), u.rest[1..])
      else
        match ParseName(s[1..])
        case Match(na, s1) => if Lit(')', s1) then Match(Group(na), s1[1..]) else Throw
        case _ => Throw
  }

  function SecondForm(s: string): (p: Parsed<NameRep>)
    ensures p.Match? ==> |p.rest| < |s| && WfRep(p.value)
  {
    match MultTag(s)
    case Throw => Throw
    case NoMatch => (match ParseUnit(s) case Match(nu, s1) => Match(NameRep(1, Unit(nu)), s1) case _ => Throw)
    case Match(m, s1) => (match ParseUnit(s1) case Match(nu, s2) => Match(NameRep(m, Unit(nu)), s2) case _ => Throw)
  }

  function ParseRep(s: string): (p: Parsed<NameRep>)
    ensures p.Match? ==> |p.rest| < |s| && WfRep(p.value)
    ensures !p.Throw?
    decreases |s|, 1
  {
    Rule(
      match MultTag(s)
      case Throw => Throw
      case NoMatch => SecondForm(s)
      case Match(m, s1) =>
        match GrpName(s1)
        case Throw => Throw
        case NoMatch => SecondForm(s)
        case Match(d, s2) => Match(NameRep(m, d), s2))
  }

  function RepList(s: string): (p: Parsed<seq<NameRep>>)
    ensures p.Match? ==> |p.rest| < |s| && WfList(p.value) && p.value != []
    ensures !p.Throw?
    decreases |s|, 2
  {
    match ParseRep(s)
    case Match(nr, s1) =>
      if !Lit(',', s1) then Match([nr], s1)
      else (match RepList(s1[1..])
            case Match(more, s2) => Match([nr] + more, s2)
            case _ => Match([nr], s1))
    case _ => NoMatch
  }

  function ParseName(s: string): (p: Parsed<Name>)
    ensures p.Match? ==> |p.rest| < |s| && WfName(p.value)
    ensures !p.Throw?
    decreases |s|, 3
  {
    match RepList(s)
    case Match(reps, s1) => Match(Name(reps), s1)
    case _ => NoMatch
  }

  // ---------------------------------------------------------------------------------------------
  // parse(): the empty string and any unconsumed input are errors

  function Whole<T>(p: Parsed<T>): Result<T> {
    if p.Match? && p.rest == [] then Ok(p.value) else Err
  }

  function NameOf(source: string): (r: Result<Name>)
    ensures r.Ok? ==> WfName(r.value)
  {
    if source == [] then Err else Whole(ParseName(source))
  }

  function RepOf(source: string): (r: Result<NameRep>)
    ensures r.Ok? ==> WfRep(r.value)
  {
    if source == [] then Err else Whole(ParseRep(source))
  }

  function UnitOf(source: string): (r: Result<NameUnit>)
    ensures r.Ok? ==> WfUnit(r.value)
  {
    if source == [] then Err else Whole(ParseUnit(source))
  }
}
