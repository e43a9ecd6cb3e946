/** What a netlist needs to know about a schematic: the index range of every internal net and the
    attributes of every terminal and net (schematic/cellview_info.cpp). */
module CellviewInfo {
  import opened Counts
  import opened Sequences
  import opened NameAst
  import opened NameGrammar

  type Attrs = map<string, string>
  type Bounds = (cnt, cnt)

  /** One appearance of a name unit in a net, with the attributes of the instance terminal it meets. */
  datatype Use = Use(nu: NameUnit, attr: Option<Attrs>)

  function ListUses(reps: seq<NameRep>, attr: Option<Attrs>): seq<Use> {
    if reps == [] then [] else RepUses(reps[0], attr) + ListUses(reps[1..], attr)
  }

  function RepUses(nr: NameRep, attr: Option<Attrs>): seq<Use> {
    match nr.data
    case Unit(nu) => [Use(nu, attr)]
    case Group(na) => ListUses(na.repList, attr)
  }

  lemma {:induction false} ListUsesSnoc(reps: seq<NameRep>, nr: NameRep, attr: Option<Attrs>)
    ensures ListUses(reps + [nr], attr) == ListUses(reps, attr) + RepUses(nr, attr)
  {
    if reps == [] {
      assert ([] + [nr])[0] == nr && ([] + [nr])[1..] == [];
    } else {
      assert (reps + [nr])[1..] == reps[1..] + [nr];
      ListUsesSnoc(reps[1..], nr, attr);
    }
  }

  // ---------------------------------------------------------------------------------------------
  // What is legal, independent of the order in which nets are met

  /** A net that shares a terminal's base name is a scalar like it, or a vector inside its range. */
  predicate InTerm(nu: NameUnit, term: Bounds) {
    var net := nu.idxRange.Bounds();
    if term.0 == term.1 then net.0 == net.1
    else net.0 != net.1 && term.0 <= net.0 && net.1 <= term.1
  }

  predicate UseInTerm(u: Use, terms: map<string, Bounds>) {
    u.nu.base in terms ==> InTerm(u.nu, terms[u.nu.base])
  }

  predicate SameAttr(u: Use, base: string, attr: Attrs) {
    u.attr.Some? && u.nu.base == base ==> u.attr.value == attr
  }

  predicate UseAgrees(u: Use, given: map<string, Attrs>) {
    u.attr.Some? && u.nu.base in given ==> u.attr.value == given[u.nu.base]
  }

  /** Every use respects the terminals and their attributes, and no two uses disagree. */
  predicate Legal(uses: seq<Use>, terms: map<string, Bounds>, given: map<string, Attrs>) {
    && (forall i :: 0 <= i < |uses| ==> UseInTerm(uses[i], terms) && UseAgrees(uses[i], given))
    && (forall i, j :: 0 <= i < |uses| && 0 <= j < |uses| && uses[j].attr.Some? ==>
          SameAttr(uses[i], uses[j].nu.base, uses[j].attr.value))
  }

  lemma LegalPrefix(a: seq<Use>, b: seq<Use>, terms: map<string, Bounds>, given: map<string, Attrs>)
    requires Legal(a + b, terms, given)
    ensures Legal(a, terms, given)
  {
    forall i | 0 <= i < |a|
      ensures UseInTerm(a[i], terms) && UseAgrees(a[i], given)
    {
      assert (a + b)[i] == a[i];
    }
    forall i, j | 0 <= i < |a| && 0 <= j < |a| && a[j].attr.Some?
      ensures SameAttr(a[i], a[j].nu.base, a[j].attr.value)
    {
      assert (a + b)[i] == a[i] && (a + b)[j] == a[j];
    }
  }

  // ---------------------------------------------------------------------------------------------
  // The tables and what they say about the uses so far

  predicate Within(nu: NameUnit, b: Bounds) {
    b.0 <= nu.idxRange.Bounds().0 && nu.idxRange.Bounds().1 <= b.1
  }

  predicate HasLow(u: Use, base: string, low: cnt) {
    u.nu.base == base && u.nu.idxRange.Bounds().0 == low
  }

  predicate HasHigh(u: Use, base: string, high: cnt) {
    u.nu.base == base && u.nu.idxRange.Bounds().1 == high
  }

  /** The table holds the hull of the uses of each internal net: it contains them all and both ends
      are attained. */
  predicate IsHull(nets: map<string, Bounds>, uses: seq<Use>, terms: map<string, Bounds>) {
    && (forall i :: 0 <= i < |uses| && uses[i].nu.base !in terms ==>
          uses[i].nu.base in nets && Within(uses[i].nu, nets[uses[i].nu.base]))
    && (forall b :: b in nets ==> b !in terms)
    && (forall b :: b in nets ==> exists i :: 0 <= i < |uses| && HasLow(uses[i], b, nets[b].0))
    && (forall b :: b in nets ==> exists i :: 0 <= i < |uses| && HasHigh(uses[i], b, nets[b].1))
  }

  predicate Gives(u: Use, base: string) {
    u.attr.Some? && u.nu.base == base
  }

  /** The attribute table: the given entries, and those of the uses. */
  predicate IsAttrTable(attrs: map<string, Attrs>, uses: seq<Use>, given: map<string, Attrs>) {
    && (forall b :: b in given ==> b in attrs && attrs[b] == given[b])
    && (forall i :: 0 <= i < |uses| && uses[i].attr.Some? ==>
          uses[i].nu.base in attrs && attrs[uses[i].nu.base] == uses[i].attr.value)
    && (forall b :: b in attrs ==> b in given || exists i :: 0 <= i < |uses| && Gives(uses[i], b))
  }

  /** Adding the attributes of one use keeps the table exact; without a clash the uses stay legal. */
  lemma AttrNext(attrs: map<string, Attrs>, uses: seq<Use>, u: Use, given: map<string, Attrs>)
    requires IsAttrTable(attrs, uses, given)
    requires u.attr.Some? && u.nu.base in attrs ==> attrs[u.nu.base] == u.attr.value
    ensures IsAttrTable(if u.attr.Some? then attrs[u.nu.base := u.attr.value] else attrs, uses + [u], given)
  {
    var all := uses + [u];
    var attrs' := if u.attr.Some? then attrs[u.nu.base := u.attr.value] else attrs;
    forall b | b in attrs'
      ensures b in given || exists i :: 0 <= i < |all| && Gives(all[i], b)
    {
      if b in attrs && b !in given {
        var i :| 0 <= i < |uses| && Gives(uses[i], b);
        assert Gives(all[i], b);
      } else if b !in given {
        assert Gives(all[|uses|], b);
      }
    }
  }

  /** The next use is legal exactly when it fits its terminal and agrees with the table. */
  lemma LegalNext(attrs: map<string, Attrs>, uses: seq<Use>, u: Use, terms: map<string, Bounds>, given: map<string, Attrs>)
    requires Legal(uses, terms, given) && IsAttrTable(attrs, uses, given)
    ensures Legal(uses + [u], terms, given) <==>
      UseInTerm(u, terms) && (u.attr.Some? && u.nu.base in attrs ==> attrs[u.nu.base] == u.attr.value)
  {
    var all := uses + [u];
    if UseInTerm(u, terms) && (u.attr.Some? && u.nu.base in attrs ==> attrs[u.nu.base] == u.attr.value) {
      AgreesWithAll(attrs, uses, u, given);
      assert Legal(all, terms, given);
    }
    if Legal(all, terms, given) {
      assert all[|uses|] == u;
      if u.attr.Some? && u.nu.base in attrs && u.nu.base !in given {
        var i :| 0 <= i < |uses| && Gives(uses[i], u.nu.base);
        assert all[i] == uses[i];
      }
    }
  }

  lemma AgreesWithAll(attrs: map<string, Attrs>, uses: seq<Use>, u: Use, given: map<string, Attrs>)
    requires IsAttrTable(attrs, uses, given)
    requires u.attr.Some? && u.nu.base in attrs ==> attrs[u.nu.base] == u.attr.value
    ensures UseAgrees(u, given)
    ensures forall i :: 0 <= i < |uses| && uses[i].attr.Some? ==> SameAttr(u, uses[i].nu.base, uses[i].attr.value)
    ensures u.attr.Some? ==> forall i :: 0 <= i < |uses| ==> SameAttr(uses[i], u.nu.base, u.attr.value)
  {
  }

  function Widened(nets: map<string, Bounds>, nu: NameUnit): map<string, Bounds> {
    var net := nu.idxRange.Bounds();
    if nu.base !in nets then nets[nu.base := net]
    else
      var cur := nets[nu.base];
      nets[nu.base := (if net.0 < cur.0 then net.0 else cur.0, if cur.1 < net.1 then net.1 else cur.1)]
  }

  /** Widening loses nothing and takes the new unit in. */
  lemma WidenedHolds(nets: map<string, Bounds>, nu: NameUnit, other: NameUnit)
    ensures nu.base in Widened(nets, nu) && Within(nu, Widened(nets, nu)[nu.base])
    ensures other.base in nets && Within(other, nets[other.base]) ==>
      other.base in Widened(nets, nu) && Within(other, Widened(nets, nu)[other.base])
  {
  }

  /** Widening one entry keeps the hull exact. */
  lemma HullNext(nets: map<string, Bounds>, uses: seq<Use>, u: Use, terms: map<string, Bounds>)
    requires IsHull(nets, uses, terms)
    ensures IsHull(if u.nu.base in terms then nets else Widened(nets, u.nu), uses + [u], terms)
  {
    var all := uses + [u];
    var nets' := if u.nu.base in terms then nets else Widened(nets, u.nu);
    forall i | 0 <= i < |all| && all[i].nu.base !in terms
      ensures all[i].nu.base in nets' && Within(all[i].nu, nets'[all[i].nu.base])
    {
      if i < |uses| {
        assert all[i] == uses[i];
        WidenedHolds(nets, u.nu, uses[i].nu);
      } else {
        assert all[i] == u;
        WidenedHolds(nets, u.nu, u.nu);
      }
    }
    forall b | b in nets'
      ensures exists i :: 0 <= i < |all| && HasLow(all[i], b, nets'[b].0)
      ensures exists i :: 0 <= i < |all| && HasHigh(all[i], b, nets'[b].1)
    {
      EndsNext(nets, nets', uses, u, terms, b);
    }
  }

  lemma EndsNext(nets: map<string, Bounds>, nets': map<string, Bounds>, uses: seq<Use>, u: Use, terms: map<string, Bounds>, b: string)
    requires IsHull(nets, uses, terms) && b in nets'
    requires nets' == if u.nu.base in terms then nets else Widened(nets, u.nu)
    ensures exists i :: 0 <= i < |uses + [u]| && HasLow((uses + [u])[i], b, nets'[b].0)
    ensures exists i :: 0 <= i < |uses + [u]| && HasHigh((uses + [u])[i], b, nets'[b].1)
  {
    LowNext(nets, nets', uses, u, b);
    HighNext(nets, nets', uses, u, b);
  }

  lemma LowNext(nets: map<string, Bounds>, nets': map<string, Bounds>, uses: seq<Use>, u: Use, b: string)
    requires b in nets' && (nets' == nets || nets' == Widened(nets, u.nu))
    requires b in nets ==> exists i :: 0 <= i < |uses| && HasLow(uses[i], b, nets[b].0)
    ensures exists i :: 0 <= i < |uses + [u]| && HasLow((uses + [u])[i], b, nets'[b].0)
  {
    var all := uses + [u];
    if b !in nets || nets'[b].0 != nets[b].0 {
      assert HasLow(all[|uses|], b, nets'[b].0);
    } else {
      var i :| 0 <= i < |uses| && HasLow(uses[i], b, nets[b].0);
      assert HasLow(all[i], b, nets'[b].0);
    }
  }

  lemma HighNext(nets: map<string, Bounds>, nets': map<string, Bounds>, uses: seq<Use>, u: Use, b: string)
    requires b in nets' && (nets' == nets || nets' == Widened(nets, u.nu))
    requires b in nets ==> exists i :: 0 <= i < |uses| && HasHigh(uses[i], b, nets[b].1)
    ensures exists i :: 0 <= i < |uses + [u]| && HasHigh((uses + [u])[i], b, nets'[b].1)
  {
    var all := uses + [u];
    if b !in nets || nets'[b].1 != nets[b].1 {
      assert HasHigh(all[|uses|], b, nets'[b].1);
    } else {
      var i :| 0 <= i < |uses| && HasHigh(uses[i], b, nets[b].1);
      assert HasHigh(all[i], b, nets'[b].1);
    }
  }

  /** The tables that register_unique_name_units reads and writes. */
  class Registry {
    const terms: map<string, Bounds>
    ghost const given: map<string, Attrs>
    var nets: map<string, Bounds>
    var attrs: map<string, Attrs>
    ghost var uses: seq<Use>

    constructor (terms: map<string, Bounds>, attrs: map<string, Attrs>)
      ensures this.terms == terms && given == attrs && uses == [] && Valid()
    {
      this.terms, this.given, this.attrs := terms, attrs, attrs;
      nets, uses := map[], [];
    }

    ghost predicate Valid()
      reads this
    {
      Legal(uses, terms, given) && IsHull(nets, uses, terms) && IsAttrTable(attrs, uses, given)
    }

    /** Registers a use: fails exactly when it makes the uses illegal. */
    method RegisterUnit(nu: NameUnit, attr: Option<Attrs>) returns (ok: bool)
      requires Valid()
      modifies this
      ensures ok <==> Legal(old(uses) + [Use(nu, attr)], terms, given)
      ensures ok ==> Valid() && uses == old(uses) + [Use(nu, attr)]
    {
      ghost var u := Use(nu, attr);
      LegalNext(attrs, uses, u, terms, given);
      ok := RegisterAttr(nu, attr);
      if !ok {
        return;
      }
      AttrNext(old(attrs), uses, u, given);
      ok := RegisterRange(nu);
      if !ok {
        return;
      }
      HullNext(old(nets), uses, u, terms);
      uses := uses + [u];
    }

    /** The attribute table takes a new entry; a different old entry is a conflict. */
    method RegisterAttr(nu: NameUnit, attr: Option<Attrs>) returns (ok: bool)
      modifies this`attrs
      ensures ok <==> (attr.Some? && nu.base in old(attrs) ==> old(attrs)[nu.base] == attr.value)
      ensures ok ==> attrs == if attr.Some? then old(attrs)[nu.base := attr.value] else old(attrs)
    {
      if attr.Some? {
        if nu.base in attrs {
          return attrs[nu.base] == attr.value;
        }
        attrs := attrs[nu.base := attr.value];
      }
      return true;
    }

    /** The range must fit the terminal, or widens the entry of the net. */
    method RegisterRange(nu: NameUnit) returns (ok: bool)
      modifies this`nets
      ensures ok <==> (nu.base in terms ==> InTerm(nu, terms[nu.base]))
      ensures ok ==> nets == if nu.base in terms then old(nets) else Widened(old(nets), nu)
    {
      var net := nu.idxRange.Bounds();
      if nu.base in terms {
        var (termStart, termStop) := terms[nu.base];
        var termScalar, netScalar := termStart == termStop, net.0 == net.1;
        if termScalar != netScalar || (!termScalar && (net.0 < termStart || net.1 > termStop)) {
          return false;
        }
      } else if nu.base !in nets {
        nets := nets[nu.base := net];
      } else {
        var cur := nets[nu.base];
        nets := nets[nu.base := (if net.0 < cur.0 then net.0 else cur.0, if cur.1 < net.1 then net.1 else cur.1)];
      }
      return true;
    }

    method RegisterRep(nr: NameRep, attr: Option<Attrs>) returns (ok: bool)
      requires Valid()
      modifies this
      ensures ok <==> Legal(old(uses) + RepUses(nr, attr), terms, given)
      ensures ok ==> Valid() && uses == old(uses) + RepUses(nr, attr)
      decreases nr
    {
      match nr.data
      case Unit(nu) => ok := RegisterUnit(nu, attr);
      case Group(na) => ok := RegisterName(na, attr);
    }

    method RegisterName(na: Name, attr: Option<Attrs>) returns (ok: bool)
      requires Valid()
      modifies this
      ensures ok <==> Legal(old(uses) + ListUses(na.repList, attr), terms, given)
      ensures ok ==> Valid() && uses == old(uses) + ListUses(na.repList, attr)
      decreases na
    {
      ghost var before := uses;
      assert before + [] == before;
      for k := 0 to |na.repList|
        invariant Valid() && uses == before + ListUses(na.repList[..k], attr)
      {
        NextRep(before, na.repList, k, attr, terms, given);
        ok := RegisterRep(na.repList[k], attr);
        if !ok {
          return;
        }
      }
      assert na.repList[..|na.repList|] == na.repList;
      return true;
    }
  }

  lemma NextRep(before: seq<Use>, reps: seq<NameRep>, k: nat, attr: Option<Attrs>, terms: map<string, Bounds>, given: map<string, Attrs>)
    requires k < |reps|
    ensures before + ListUses(reps[..k + 1], attr) == before + ListUses(reps[..k], attr) + RepUses(reps[k], attr)
    ensures Legal(before + ListUses(reps, attr), terms, given) ==> Legal(before + ListUses(reps[..k + 1], attr), terms, given)
  {
    assert reps[..k + 1] == reps[..k] + [reps[k]];
    ListUsesSnoc(reps[..k], reps[k], attr);
    ListUsesAppend(reps[..k + 1], reps[k + 1..], attr);
    assert reps[..k + 1] + reps[k + 1..] == reps;
    var a, b := before + ListUses(reps[..k + 1], attr), ListUses(reps[k + 1..], attr);
    assert before + ListUses(reps, attr) == a + b;
    if Legal(a + b, terms, given) {
      LegalPrefix(a, b, terms, given);
    }
  }

  lemma {:induction false} ListUsesAppend(a: seq<NameRep>, b: seq<NameRep>, attr: Option<Attrs>)
    ensures ListUses(a + b, attr) == ListUses(a, attr) + ListUses(b, attr)
  {
    if a == [] {
      assert a + b == b;
    } else {
      assert (a + b)[1..] == a[1..] + b;
      ListUsesAppend(a[1..], b, attr);
    }
  }

  // ---------------------------------------------------------------------------------------------
  // A whole cellview

  datatype Terminal = Terminal(name: string, attrs: Attrs)

  datatype Conn = Conn(term: string, net: string)

  /** An instance: the master it refers to and its connections. */
  datatype Inst = Inst(cell: string, conns: seq<Conn>)

  /** Bounds and attributes by base name; the first terminal with a base name counts. */
  function TermTables(terminals: seq<Terminal>): Result<(map<string, Bounds>, map<string, Attrs>)> {
    if terminals == [] then Ok((map[], map[]))
    else
      var (terms, attrs) :- TermTables(terminals[..|terminals| - 1]);
      var last := terminals[|terminals| - 1];
      var nu :- UnitOf(last.name);
      Ok((if nu.base in terms then terms else terms[nu.base := nu.idxRange.Bounds()],
          if last.attrs == map[] || nu.base in attrs then attrs else attrs[nu.base := last.attrs]))
  }

  predicate HasBounds(terminal: Terminal, base: string, b: Bounds) {
    UnitOf(terminal.name).Ok? && UnitOf(terminal.name).value.base == base && UnitOf(terminal.name).value.idxRange.Bounds() == b
  }

  predicate HasEntry(terminal: Terminal, terms: map<string, Bounds>) {
    UnitOf(terminal.name).Ok? && UnitOf(terminal.name).value.base in terms
  }

  /** Every terminal's base name is in the table, and every entry is the range of some terminal. */
  lemma {:induction false} TermTablesMean(terminals: seq<Terminal>)
    requires TermTables(terminals).Ok?
    ensures forall i :: 0 <= i < |terminals| ==> HasEntry(terminals[i], TermTables(terminals).value.0)
    ensures forall b :: b in TermTables(terminals).value.0 ==>
      exists i :: 0 <= i < |terminals| && HasBounds(terminals[i], b, TermTables(terminals).value.0[b])
  {
    if terminals != [] {
      var init, last := terminals[..|terminals| - 1], terminals[|terminals| - 1];
      TermTablesMean(init);
      var terms0, terms := TermTables(init).value.0, TermTables(terminals).value.0;
      var nu := UnitOf(last.name).value;
      assert terms == if nu.base in terms0 then terms0 else terms0[nu.base := nu.idxRange.Bounds()];
      forall i | 0 <= i < |terminals|
        ensures HasEntry(terminals[i], terms)
      {
        EntryNext(terminals, terms0, nu, terms, i);
      }
      forall b | b in terms
        ensures exists i :: 0 <= i < |terminals| && HasBounds(terminals[i], b, terms[b])
      {
        FromTerminal(terminals, terms0, terms, b);
      }
    }
  }

  lemma EntryNext(terminals: seq<Terminal>, terms0: map<string, Bounds>, nu: NameUnit, terms: map<string, Bounds>, i: nat)
    requires i < |terminals| && UnitOf(terminals[|terminals| - 1].name) == Ok(nu)
    requires terms0.Keys + {nu.base} <= terms.Keys
    requires var init := terminals[..|terminals| - 1]; i < |init| ==> HasEntry(init[i], terms0)
    ensures HasEntry(terminals[i], terms)
  {
    if i < |terminals| - 1 {
      EntryGrows(terminals[..|terminals| - 1][i], terms0, terms);
    }
  }

  lemma EntryGrows(terminal: Terminal, terms0: map<string, Bounds>, terms: map<string, Bounds>)
    requires HasEntry(terminal, terms0) && terms0.Keys <= terms.Keys
    ensures HasEntry(terminal, terms)
  {
  }

  lemma FromTerminal(terminals: seq<Terminal>, terms0: map<string, Bounds>, terms: map<string, Bounds>, b: string)
    requires terminals != [] && b in terms && UnitOf(terminals[|terminals| - 1].name).Ok?
    requires var nu := UnitOf(terminals[|terminals| - 1].name).value;
      terms == if nu.base in terms0 then terms0 else terms0[nu.base := nu.idxRange.Bounds()]
    requires var init := terminals[..|terminals| - 1];
      b in terms0 ==> exists i :: 0 <= i < |init| && HasBounds(init[i], b, terms0[b])
    ensures exists i :: 0 <= i < |terminals| && HasBounds(terminals[i], b, terms[b])
  {
    var init := terminals[..|terminals| - 1];
    if b in terms0 {
      var i :| 0 <= i < |init| && HasBounds(init[i], b, terms0[b]);
      assert HasBounds(terminals[i], b, terms[b]);
    } else {
      assert HasBounds(terminals[|init|], b, terms[b]);
    }
  }

  /** Attributes by terminal base name of a master; None when net attributes are not wanted. */
  type MasterAttrs = Option<map<string, Attrs>>

  function AttrOf(master: MasterAttrs, base: string): Option<Attrs> {
    if master.Some? && base in master.value then Some(master.value[base]) else None
  }

  function ConnUses(master: MasterAttrs, conn: Conn): Result<seq<Use>> {
    var term :- UnitOf(conn.term);
    var net :- NameOf(conn.net);
    Ok(ListUses(net.repList, AttrOf(master, term.base)))
  }

  function ConnsUses(master: MasterAttrs, conns: seq<Conn>): Result<seq<Use>> {
    if conns == [] then Ok([])
    else
      var before :- ConnsUses(master, conns[..|conns| - 1]);
      var last :- ConnUses(master, conns[|conns| - 1]);
      Ok(before + last)
  }

  /** The table of an instance's master; a missing master is an error. */
  function MasterOf(masters: map<string, map<string, Attrs>>, wanted: bool, cell: string): Result<MasterAttrs> {
    if !wanted then Ok(None) else if cell in masters then Ok(Some(masters[cell])) else Err
  }

  function InstUses(masters: map<string, map<string, Attrs>>, wanted: bool, inst: Inst): Result<seq<Use>> {
    var master :- MasterOf(masters, wanted, inst.cell);
    ConnsUses(master, inst.conns)
  }

  function InstsUses(masters: map<string, map<string, Attrs>>, wanted: bool, insts: seq<Inst>): Result<seq<Use>> {
    if insts == [] then Ok([])
    else
      var before :- InstsUses(masters, wanted, insts[..|insts| - 1]);
      var last :- InstUses(masters, wanted, insts[|insts| - 1]);
      Ok(before + last)
  }

  lemma {:induction false} ConnsPrefix(master: MasterAttrs, conns: seq<Conn>, k: nat)
    requires k <= |conns| && ConnsUses(master, conns).Ok?
    ensures ConnsUses(master, conns[..k]).Ok? && ConnsUses(master, conns[..k]).value <= ConnsUses(master, conns).value
  {
    if k == |conns| {
      assert conns[..k] == conns;
    } else {
      ConnsPrefix(master, conns[..|conns| - 1], k);
      assert conns[..|conns| - 1][..k] == conns[..k];
    }
  }

  lemma {:induction false} InstsPrefix(masters: map<string, map<string, Attrs>>, wanted: bool, insts: seq<Inst>, k: nat)
    requires k <= |insts| && InstsUses(masters, wanted, insts).Ok?
    ensures InstsUses(masters, wanted, insts[..k]).Ok?
    ensures InstsUses(masters, wanted, insts[..k]).value <= InstsUses(masters, wanted, insts).value
  {
    if k == |insts| {
      assert insts[..k] == insts;
    } else {
      InstsPrefix(masters, wanted, insts[..|insts| - 1], k);
      assert insts[..|insts| - 1][..k] == insts[..k];
    }
  }

  lemma Assoc(a: seq<Use>, b: seq<Use>, c: seq<Use>)
    ensures a + (b + c) == a + b + c
  {
  }

  /** Illegal uses stay illegal when more uses follow. */
  lemma IllegalStays(before: seq<Use>, a: seq<Use>, b: seq<Use>, terms: map<string, Bounds>, given: map<string, Attrs>)
    requires a <= b && Legal(before + b, terms, given)
    ensures Legal(before + a, terms, given)
  {
    assert before + b == (before + a) + b[|a|..];
    LegalPrefix(before + a, b[|a|..], terms, given);
  }

  ghost predicate AllLegal(before: seq<Use>, uses: Result<seq<Use>>, terms: map<string, Bounds>, given: map<string, Attrs>) {
    uses.Ok? && Legal(before + uses.value, terms, given)
  }

  method RegisterConn(reg: Registry, master: MasterAttrs, conn: Conn) returns (ok: bool)
    requires reg.Valid()
    modifies reg
    ensures ok <==> AllLegal(old(reg.uses), ConnUses(master, conn), reg.terms, reg.given)
    ensures ok ==> reg.Valid() && reg.uses == old(reg.uses) + ConnUses(master, conn).value
  {
    var term, net := UnitOf(conn.term), NameOf(conn.net);
    if term.Err? || net.Err? {
      return false;
    }
    ok := reg.RegisterName(net.value, AttrOf(master, term.value.base));
  }

  lemma NextConn(before: seq<Use>, master: MasterAttrs, conns: seq<Conn>, k: nat, terms: map<string, Bounds>, given: map<string, Attrs>)
    requires k < |conns| && ConnsUses(master, conns[..k]).Ok?
    ensures ConnsUses(master, conns[..k + 1]).Ok? <==> ConnUses(master, conns[k]).Ok?
    ensures ConnUses(master, conns[k]).Ok? ==>
      before + ConnsUses(master, conns[..k + 1]).value == before + ConnsUses(master, conns[..k]).value + ConnUses(master, conns[k]).value
    ensures AllLegal(before, ConnsUses(master, conns), terms, given) ==> AllLegal(before, ConnsUses(master, conns[..k + 1]), terms, given)
  {
    var upTo := conns[..k + 1];
    ConnsSnoc(master, conns, k);
    if AllLegal(before, ConnsUses(master, conns), terms, given) {
      ConnsPrefix(master, conns, k + 1);
      IllegalStays(before, ConnsUses(master, upTo).value, ConnsUses(master, conns).value, terms, given);
    }
    if ConnUses(master, conns[k]).Ok? {
      var a, b := ConnsUses(master, conns[..k]).value, ConnUses(master, conns[k]).value;
      Assoc(before, a, b);
    }
  }

  lemma ConnsSnoc(master: MasterAttrs, conns: seq<Conn>, k: nat)
    requires k < |conns| && ConnsUses(master, conns[..k]).Ok?
    ensures var r := ConnUses(master, conns[k]);
      ConnsUses(master, conns[..k + 1]) == if r.Err? then Err else Ok(ConnsUses(master, conns[..k]).value + r.value)
  {
    assert conns[..k + 1][..k] == conns[..k];
  }

  method RegisterConns(reg: Registry, master: MasterAttrs, conns: seq<Conn>) returns (ok: bool)
    requires reg.Valid()
    modifies reg
    ensures ok <==> AllLegal(old(reg.uses), ConnsUses(master, conns), reg.terms, reg.given)
    ensures ok ==> reg.Valid() && reg.uses == old(reg.uses) + ConnsUses(master, conns).value
  {
    ghost var before := reg.uses;
    assert before + [] == before;
    for k := 0 to |conns|
      invariant reg.Valid() && ConnsUses(master, conns[..k]).Ok?
      invariant reg.uses == before + ConnsUses(master, conns[..k]).value
    {
      NextConn(before, master, conns, k, reg.terms, reg.given);
      ok := RegisterConn(reg, master, conns[k]);
      if !ok {
        return;
      }
    }
    assert conns[..|conns|] == conns;
    return true;
  }

  lemma NextInst(before: seq<Use>, masters: map<string, map<string, Attrs>>, wanted: bool, insts: seq<Inst>, k: nat,
                 terms: map<string, Bounds>, given: map<string, Attrs>)
    requires k < |insts| && InstsUses(masters, wanted, insts[..k]).Ok?
    ensures InstsUses(masters, wanted, insts[..k + 1]).Ok? <==> InstUses(masters, wanted, insts[k]).Ok?
    ensures InstUses(masters, wanted, insts[k]).Ok? ==>
      before + InstsUses(masters, wanted, insts[..k + 1]).value
        == before + InstsUses(masters, wanted, insts[..k]).value + InstUses(masters, wanted, insts[k]).value
    ensures AllLegal(before, InstsUses(masters, wanted, insts), terms, given) ==>
      AllLegal(before, InstsUses(masters, wanted, insts[..k + 1]), terms, given)
  {
    var upTo := insts[..k + 1];
    InstsSnoc(masters, wanted, insts, k);
    if AllLegal(before, InstsUses(masters, wanted, insts), terms, given) {
      InstsPrefix(masters, wanted, insts, k + 1);
      IllegalStays(before, InstsUses(masters, wanted, upTo).value, InstsUses(masters, wanted, insts).value, terms, given);
    }
    if InstUses(masters, wanted, insts[k]).Ok? {
      var a, b := InstsUses(masters, wanted, insts[..k]).value, InstUses(masters, wanted, insts[k]).value;
      Assoc(before, a, b);
    }
  }

  lemma InstsSnoc(masters: map<string, map<string, Attrs>>, wanted: bool, insts: seq<Inst>, k: nat)
    requires k < |insts| && InstsUses(masters, wanted, insts[..k]).Ok?
    ensures var r := InstUses(masters, wanted, insts[k]);
      InstsUses(masters, wanted, insts[..k + 1])
        == if r.Err? then Err else Ok(InstsUses(masters, wanted, insts[..k]).value + r.value)
  {
    assert insts[..k + 1][..k] == insts[..k];
  }

  method RegisterInsts(reg: Registry, masters: map<string, map<string, Attrs>>, wanted: bool, insts: seq<Inst>) returns (ok: bool)
    requires reg.Valid()
    modifies reg
    ensures ok <==> AllLegal(old(reg.uses), InstsUses(masters, wanted, insts), reg.terms, reg.given)
    ensures ok ==> reg.Valid() && reg.uses == old(reg.uses) + InstsUses(masters, wanted, insts).value
  {
    ghost var before := reg.uses;
    assert before + [] == before;
    for k := 0 to |insts|
      invariant reg.Valid() && InstsUses(masters, wanted, insts[..k]).Ok?
      invariant reg.uses == before + InstsUses(masters, wanted, insts[..k]).value
    {
      NextInst(before, masters, wanted, insts, k, reg.terms, reg.given);
      var master := MasterOf(masters, wanted, insts[k].cell);
      if master.Err? {
        return false;
      }
      ok := RegisterConns(reg, master.value, insts[k].conns);
      if !ok {
        return;
      }
    }
    assert insts[..|insts|] == insts;
    return true;
  }

  method ReadTerminals(terminals: seq<Terminal>) returns (r: Result<(map<string, Bounds>, map<string, Attrs>)>)
    ensures r == TermTables(terminals)
  {
    var terms: map<string, Bounds>, attrs: map<string, Attrs> := map[], map[];
    for k := 0 to |terminals|
      invariant TermTables(terminals[..k]) == Ok((terms, attrs))
    {
      assert terminals[..k + 1][..k] == terminals[..k];
      var nu := UnitOf(terminals[k].name);
      if nu.Err? {
        BadTerminal(terminals, k);
        return Err;
      }
      if nu.value.base !in terms {
        terms := terms[nu.value.base := nu.value.idxRange.Bounds()];
      }
      if terminals[k].attrs != map[] && nu.value.base !in attrs {
        attrs := attrs[nu.value.base := terminals[k].attrs];
      }
    }
    assert terminals[..|terminals|] == terminals;
    return Ok((terms, attrs));
  }

  lemma {:induction false} BadTerminal(terminals: seq<Terminal>, k: nat)
    requires k < |terminals| && UnitOf(terminals[k].name).Err?
    ensures TermTables(terminals).Err?
  {
    if k < |terminals| - 1 {
      BadTerminal(terminals[..|terminals| - 1], k);
    }
  }

  /** The tables a netlist is written from. */
  datatype Info = Info(terms: map<string, Bounds>, nets: map<string, Bounds>, attrs: map<string, Attrs>)

  /** get_cv_netlist_info: succeeds exactly when every name parses, every master is known and the
      uses are legal; the tables are then exact. */
  method GetCvNetlistInfo(terminals: seq<Terminal>, insts: seq<Inst>, masters: map<string, map<string, Attrs>>, wanted: bool)
    returns (r: Result<Info>)
    ensures r.Ok? <==>
      TermTables(terminals).Ok?
      && AllLegal([], InstsUses(masters, wanted, insts), TermTables(terminals).value.0, TermTables(terminals).value.1)
    ensures r.Ok? ==> r.value.terms == TermTables(terminals).value.0
    ensures r.Ok? ==> IsHull(r.value.nets, InstsUses(masters, wanted, insts).value, r.value.terms)
    ensures r.Ok? ==> IsAttrTable(r.value.attrs, InstsUses(masters, wanted, insts).value, TermTables(terminals).value.1)
  {
    var tables := ReadTerminals(terminals);
    if tables.Err? {
      return Err;
    }
    var reg := new Registry(tables.value.0, tables.value.1);
    var ok := RegisterInsts(reg, masters, wanted, insts);
    if !ok {
      return Err;
    }
    assert [] + InstsUses(masters, wanted, insts).value == InstsUses(masters, wanted, insts).value;
    return Ok(Info(reg.terms, reg.nets, reg.attrs));
  }

  // ---------------------------------------------------------------------------------------------
  // Coverage

  /** A vector bit lies in the range of its terminal or of its net; a scalar has an entry. */
  predicate BitCovered(bit: Bit, terms: map<string, Bounds>, nets: map<string, Bounds>) {
    match bit
    case Indexed(b, i) =>
      if b in terms then terms[b].0 <= i < terms[b].1 else b in nets && nets[b].0 <= i < nets[b].1
    case Scalar(b) => if b in terms then terms[b].0 == terms[b].1 else b in nets
  }

  lemma UnitCovered(nu: NameUnit, terms: map<string, Bounds>, nets: map<string, Bounds>, bit: Bit)
    requires WfUnit(nu) && bit in UnitBits(nu)
    requires nu.base in terms ==> InTerm(nu, terms[nu.base])
    requires nu.base !in terms ==> nu.base in nets && Within(nu, nets[nu.base])
    ensures BitCovered(bit, terms, nets)
  {
    if nu.IsVector() {
      BoundsAreHull(nu.idxRange);
      WfUnitFits(nu);
      var k: cnt :| k < nu.idxRange.Size() && bit == Indexed(nu.base, nu.idxRange.At(k));
      assert nu.idxRange.Bounds().0 <= nu.idxRange.At(k) < nu.idxRange.Bounds().1;
    }
  }

  predicate Carries(u: Use, bit: Bit) {
    WfUnit(u.nu) && bit in UnitBits(u.nu)
  }

  predicate Carried(uses: seq<Use>, bit: Bit) {
    exists i :: 0 <= i < |uses| && Carries(uses[i], bit)
  }

  lemma CarriedGrows(a: seq<Use>, b: seq<Use>, bit: Bit)
    requires Carried(a, bit) || Carried(b, bit)
    ensures Carried(a + b, bit)
  {
    if Carried(a, bit) {
      var i :| 0 <= i < |a| && Carries(a[i], bit);
      assert (a + b)[i] == a[i];
    } else {
      var i :| 0 <= i < |b| && Carries(b[i], bit);
      assert (a + b)[|a| + i] == b[i];
    }
  }

  lemma CarriedBeyond(a: seq<Use>, b: seq<Use>, bit: Bit)
    requires Carried(a, bit) && a <= b
    ensures Carried(b, bit)
  {
    assert b == a + b[|a|..];
    CarriedGrows(a, b[|a|..], bit);
  }

  lemma {:induction false} RepeatMember<T>(s: seq<T>, n: nat, x: T)
    requires x in Repeat(s, n)
    ensures x in s
  {
    if x !in s {
      RepeatMember(s, n - 1, x);
    }
  }

  /** Every bit of a net comes from one of its uses. */
  lemma {:induction false} ListCarried(reps: seq<NameRep>, attr: Option<Attrs>, bit: Bit)
    requires WfList(reps) && bit in ListBits(reps)
    ensures Carried(ListUses(reps, attr), bit)
    decreases reps
  {
    if bit in RepBits(reps[0]) {
      RepCarried(reps[0], attr, bit);
    } else {
      ListCarried(reps[1..], attr, bit);
    }
    CarriedGrows(RepUses(reps[0], attr), ListUses(reps[1..], attr), bit);
  }

  lemma {:induction false} RepCarried(nr: NameRep, attr: Option<Attrs>, bit: Bit)
    requires WfRep(nr) && bit in RepBits(nr)
    ensures Carried(RepUses(nr, attr), bit)
    decreases nr
  {
    RepeatMember(DataBits(nr.data), nr.mult, bit);
    assert WfData(nr.data);
    match nr.data
    case Unit(nu) => assert Carries(RepUses(nr, attr)[0], bit);
    case Group(na) => ListCarried(na.repList, attr, bit);
  }

  lemma UsesCover(uses: seq<Use>, terms: map<string, Bounds>, given: map<string, Attrs>, nets: map<string, Bounds>, i: nat, bit: Bit)
    requires Legal(uses, terms, given) && IsHull(nets, uses, terms) && i < |uses| && Carries(uses[i], bit)
    ensures BitCovered(bit, terms, nets)
  {
    assert UseInTerm(uses[i], terms);
    UnitCovered(uses[i].nu, terms, nets, bit);
  }

  /** After get_cv_netlist_info succeeds, every bit of every net is covered. */
  lemma NetsCovered(terminals: seq<Terminal>, insts: seq<Inst>, masters: map<string, map<string, Attrs>>, wanted: bool,
                    nets: map<string, Bounds>, i: nat, c: nat, bit: Bit)
    requires TermTables(terminals).Ok?
    requires AllLegal([], InstsUses(masters, wanted, insts), TermTables(terminals).value.0, TermTables(terminals).value.1)
    requires IsHull(nets, InstsUses(masters, wanted, insts).value, TermTables(terminals).value.0)
    requires i < |insts| && c < |insts[i].conns| && NameOf(insts[i].conns[c].net).Ok?
    requires bit in NameBits(NameOf(insts[i].conns[c].net).value)
    ensures BitCovered(bit, TermTables(terminals).value.0, nets)
  {
    var (terms, given) := TermTables(terminals).value;
    var uses := InstsUses(masters, wanted, insts).value;
    assert [] + uses == uses;
    NetUsed(masters, wanted, insts, i, c, bit);
    var k :| 0 <= k < |uses| && Carries(uses[k], bit);
    UsesCover(uses, terms, given, nets, k, bit);
  }

  /** The uses of one net are among all uses. */
  lemma NetUsed(masters: map<string, map<string, Attrs>>, wanted: bool, insts: seq<Inst>, i: nat, c: nat, bit: Bit)
    requires InstsUses(masters, wanted, insts).Ok? && i < |insts| && c < |insts[i].conns|
    requires NameOf(insts[i].conns[c].net).Ok? && bit in NameBits(NameOf(insts[i].conns[c].net).value)
    ensures Carried(InstsUses(masters, wanted, insts).value, bit)
  {
    InstsPrefix(masters, wanted, insts, i);
    InstsPrefix(masters, wanted, insts, i + 1);
    InstsSnoc(masters, wanted, insts, i);
    var mine := InstUses(masters, wanted, insts[i]).value;
    ConnUsed(MasterOf(masters, wanted, insts[i].cell).value, insts[i].conns, c, bit);
    CarriedGrows(InstsUses(masters, wanted, insts[..i]).value, mine, bit);
    CarriedBeyond(InstsUses(masters, wanted, insts[..i + 1]).value, InstsUses(masters, wanted, insts).value, bit);
  }

  lemma ConnUsed(master: MasterAttrs, conns: seq<Conn>, c: nat, bit: Bit)
    requires ConnsUses(master, conns).Ok? && c < |conns|
    requires NameOf(conns[c].net).Ok? && bit in NameBits(NameOf(conns[c].net).value)
    ensures Carried(ConnsUses(master, conns).value, bit)
  {
    ConnsPrefix(master, conns, c);
    ConnsPrefix(master, conns, c + 1);
    ConnsSnoc(master, conns, c);
    ConnCarried(master, conns[c], bit);
    CarriedGrows(ConnsUses(master, conns[..c]).value, ConnUses(master, conns[c]).value, bit);
    CarriedBeyond(ConnsUses(master, conns[..c + 1]).value, ConnsUses(master, conns).value, bit);
  }

  lemma ConnCarried(master: MasterAttrs, conn: Conn, bit: Bit)
    requires ConnUses(master, conn).Ok? && bit in NameBits(NameOf(conn.net).value)
    ensures Carried(ConnUses(master, conn).value, bit)
  {
    ListCarried(NameOf(conn.net).value.repList, AttrOf(master, UnitOf(conn.term).value.base), bit);
  }
}
