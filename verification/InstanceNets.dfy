/** The nets connected to one instance (schematic/instance.cpp).

    Nets are stored as text, so every edit that repeats a net parses it, repeats the name and prints
    it again.  A stored net is right when it has as many bits as the instance has elements times the
    width of the terminal.
 */
module InstanceNets {
  import opened Arithmetic
  import opened Counts
  import opened Sequences
  import opened Decimal
  import opened NameAst
  import opened CdbaText
  import opened NameGrammar
  import opened RoundTrip
  import SortedMaps

  /** Net text by terminal name. */
  type Connections = map<string, string>

  // ---------------------------------------------------------------------------------------------
  // Repeating a name

  /** name::repeat: a lone entry has its multiplier scaled, a longer list becomes a group. */
  function Repeated(na: Name, mult: nat): Name {
    if na.repList == [] || mult == 1 then na
    else if mult == 0 then Name([])
    else if |na.repList| == 1 then
      Name([NameRep(Wrap(Times(mult, na.repList[0].mult)), na.repList[0].data)])
    else Name([NameRep(Wrap(mult), Group(na))])
  }

  lemma SingleBits(nr: NameRep)
    ensures ListBits([nr]) == RepBits(nr)
  {
    assert [nr][1..] == [];
    assert ListBits([nr]) == RepBits(nr) + ListBits([]);
  }

  lemma {:induction false} TimesNested(a: nat, b: nat, c: nat)
    ensures Times(Times(a, b), c) == Times(a, Times(b, c))
  {
    if a > 0 {
      TimesNested(a - 1, b, c);
      TimesAdd(Times(a - 1, b), b, c);
    }
  }

  lemma {:induction false} TimesGrows(n: nat, d: nat)
    requires d >= 1
    ensures Times(n, d) >= n
  {
    if n > 0 {
      TimesGrows(n - 1, d);
    }
  }

  lemma QuotientPositive(n: nat, d: nat)
    requires n > 0 && d > 0 && Remainder(n, d) == 0
    ensures Quotient(n, d) >= 1
  {
  }

  /** Repeating a name repeats its bits. */
  lemma RepeatedBits(na: Name, k: cnt)
    requires WfName(na) && Times(k, |NameBits(na)|) < TWO64
    ensures NameBits(Repeated(na, k)) == Repeat(NameBits(na), k)
  {
    RepeatOnce(NameBits(na));
    if k > 1 {
      if |na.repList| == 1 {
        var nr := na.repList[0];
        assert na.repList == [nr];
        SingleBits(nr);
        NoWrap(nr, k);
        SingleBits(NameRep(Times(k, nr.mult), nr.data));
        RepeatRepeat(DataBits(nr.data), nr.mult, k);
      } else {
        SingleBits(NameRep(k, Group(na)));
      }
    }
  }

  /** The scaled multiplier is at most the number of bits. */
  lemma NoWrap(nr: NameRep, k: cnt)
    requires WfRep(nr) && Times(k, |RepBits(nr)|) < TWO64
    ensures Times(k, nr.mult) < TWO64
  {
    WfDataHasBits(nr.data);
    RepeatLength(DataBits(nr.data), nr.mult);
    TimesNested(k, nr.mult, |DataBits(nr.data)|);
    TimesGrows(Times(k, nr.mult), |DataBits(nr.data)|);
  }

  /** The multiplier that the repeated name is printed with is below 2^32, as the grammar demands. */
  predicate Storable(na: Name, k: nat) {
    k == 1 || (if |na.repList| == 1 then Times(k, na.repList[0].mult) < TWO32 else k < TWO32)
  }

  function RepeatedText(net: string, k: nat): string
    requires NameOf(net).Ok?
  {
    ListText(Repeated(NameOf(net).value, k).repList)
  }

  function NetBits(net: string): (bits: seq<Bit>)
    requires NameOf(net).Ok?
    ensures |bits| > 0
  {
    WfDataHasBits(Group(NameOf(net).value));
    NameBits(NameOf(net).value)
  }

  /** A repeated net can be read back if and only if its multiplier is storable, and then it is the old
      bit list repeated. */
  lemma RepeatedTextMeans(net: string, k: cnt)
    requires NameOf(net).Ok? && 1 <= k && Times(k, |NetBits(net)|) < TWO64
    ensures NameOf(RepeatedText(net, k)).Ok? <==> Storable(NameOf(net).value, k)
    ensures NameOf(RepeatedText(net, k)).Ok? ==> NetBits(RepeatedText(net, k)) == Repeat(NetBits(net), k)
  {
    var na := NameOf(net).value;
    var r := Repeated(na, k);
    RepeatedBits(na, k);
    if |na.repList| == 1 {
      assert WfRep(na.repList[0]);
      assert na.repList == [na.repList[0]];
      SingleBits(na.repList[0]);
      NoWrap(na.repList[0], k);
    }
    if Storable(na, k) {
      RepeatedWf(na, k);
      PrintParse(r);
    } else {
      assert r.repList == [r.repList[0]];
      LargeMultiplierRejected(r.repList[0]);
    }
  }

  /** The same with the width that is wanted. */
  lemma RepeatedToWidth(net: string, k: nat, width: nat)
    requires NameOf(net).Ok? && 1 <= k && Times(k, |NetBits(net)|) == width < TWO63
    ensures var text := RepeatedText(net, k);
      && (NameOf(text).Ok? && |NetBits(text)| == width <==> Storable(NameOf(net).value, k))
      && (NameOf(text).Ok? ==> NetBits(text) == Repeat(NetBits(net), k))
  {
    TimesGrows(k, |NetBits(net)|);
    RepeatedTextMeans(net, k);
    RepeatLength(NetBits(net), k);
  }

  lemma RepeatedWf(na: Name, k: cnt)
    requires WfName(na) && 1 <= k && Storable(na, k)
    ensures WfName(Repeated(na, k))
  {
    if k > 1 && |na.repList| == 1 {
      assert WfRep(na.repList[0]);
      TimesGrows(k, na.repList[0].mult);
    }
  }

  // ---------------------------------------------------------------------------------------------
  // Connections of one instance

  predicate SizedNet(n: nat, term: string, net: string) {
    UnitOf(term).Ok? && NameOf(net).Ok? && |NetBits(net)| == Times(n, UnitOf(term).value.Size())
  }

  /** Every net has the width of `n` copies of its terminal. */
  predicate Sized(conns: Connections, n: nat) {
    forall t :: t in conns ==> SizedNet(n, t, conns[t])
  }

  /** The width that `n` copies of a terminal need fits a signed 64-bit integer. */
  predicate FitsTerm(n: nat, term: string) {
    UnitOf(term).Ok? ==> Times(n, UnitOf(term).value.Size()) < TWO63
  }

  predicate FitsNet(net: string) {
    NameOf(net).Ok? ==> |NetBits(net)| < TWO63
  }

  /** The net text that update_connection stores, if it does not throw. */
  function Connected(n: nat, term: string, net: string): Result<string> {
    if UnitOf(term).Err? || NameOf(net).Err? then Err
    else
      var tot, have := Times(n, UnitOf(term).value.Size()), |NetBits(net)|;
      if tot == have then Ok(net)
      else if Remainder(tot, have) != 0 then Err
      else Ok(RepeatedText(net, Quotient(tot, have)))
  }

  /** How often the net is repeated to reach the wanted width. */
  function Copies(n: nat, term: string, net: string): nat
    requires UnitOf(term).Ok? && NameOf(net).Ok?
  {
    Quotient(Times(n, UnitOf(term).value.Size()), |NetBits(net)|)
  }

  /** Both names parse, and the net's width divides the wanted width. */
  predicate Connects(n: nat, term: string, net: string) {
    && UnitOf(term).Ok? && NameOf(net).Ok?
    && Remainder(Times(n, UnitOf(term).value.Size()), |NetBits(net)|) == 0
  }

  lemma ConnectedSucceeds(n: nat, term: string, net: string)
    ensures Connected(n, term, net).Ok? <==> Connects(n, term, net)
  {
    if UnitOf(term).Ok? && NameOf(net).Ok? {
      var have := |NetBits(net)|;
      assert Remainder(have, have) == Remainder(0, have);
    }
  }

  /** The multiplier that connecting prints the net with can be read back. */
  predicate ConnStorable(n: nat, term: string, net: string) {
    Connects(n, term, net) ==> Storable(NameOf(net).value, Copies(n, term, net))
  }

  /** A connected net can be read back if and only if its multiplier is storable; then it is the given
      net repeated, with exactly the wanted width. */
  lemma ConnectedMeans(n: nat, term: string, net: string)
    requires n >= 1 && FitsTerm(n, term) && Connects(n, term, net)
    ensures Connected(n, term, net).Ok?
    ensures SizedNet(n, term, Connected(n, term, net).value) <==> ConnStorable(n, term, net)
    ensures SizedNet(n, term, Connected(n, term, net).value) ==>
      NetBits(Connected(n, term, net).value) == Repeat(NetBits(net), Copies(n, term, net))
  {
    ConnectedSucceeds(n, term, net);
    var tot, have := Times(n, UnitOf(term).value.Size()), |NetBits(net)|;
    WfUnitFits(UnitOf(term).value);
    TimesGrows(n, UnitOf(term).value.Size());
    QuotientBracket(tot, have);
    if tot == have {
      assert Times(1, have) == have;
      QuotientUnique(tot, have, 1);
      RepeatOnce(NetBits(net));
    } else {
      var k := Quotient(tot, have);
      QuotientPositive(tot, have);
      RepeatedToWidth(net, k, tot);
    }
  }

  // ---------------------------------------------------------------------------------------------
  // The order of the connections

  /** std::less on strings: the order in which a sorted map of strings is walked. */
  predicate StringLess(a: string, b: string) {
    b != [] && (a == [] || a[0] < b[0] || (a[0] == b[0] && StringLess(a[1..], b[1..])))
  }

  lemma {:induction false} LessIrreflexive(a: string)
    ensures !StringLess(a, a)
  {
    if a != [] {
      LessIrreflexive(a[1..]);
    }
  }

  lemma {:induction false} LessTransitive(a: string, b: string, c: string)
    requires StringLess(a, b) && StringLess(b, c)
    ensures StringLess(a, c)
  {
    if a != [] && a[0] == b[0] == c[0] {
      LessTransitive(a[1..], b[1..], c[1..]);
    }
  }

  lemma {:induction false} LessAsymmetric(a: string, b: string)
    ensures !(StringLess(a, b) && StringLess(b, a))
  {
    if a != [] && b != [] {
      LessAsymmetric(a[1..], b[1..]);
    }
  }

  lemma {:induction false} LessTotal(a: string, b: string)
    ensures a == b || StringLess(a, b) || StringLess(b, a)
  {
    if a != [] && b != [] && a[0] == b[0] {
      LessTotal(a[1..], b[1..]);
      assert a == [a[0]] + a[1..] && b == [b[0]] + b[1..];
    }
  }

  /** Strings are a key type for the sorted map. */
  lemma StringOrder()
    ensures SortedMaps.StrictTotalOrder(StringLess)
  {
    forall a
      ensures !StringLess(a, a)
    {
      LessIrreflexive(a);
    }
    forall a, b, c | StringLess(a, b) && StringLess(b, c)
      ensures StringLess(a, c)
    {
      LessTransitive(a, b, c);
    }
    forall a, b
      ensures a == b || StringLess(a, b) || StringLess(b, a)
    {
      LessTotal(a, b);
    }
  }

  predicate IsLeast(t: string, keys: set<string>) {
    t in keys && forall u :: u in keys ==> u == t || StringLess(t, u)
  }

  lemma {:induction false} LeastExists(keys: set<string>)
    requires keys != {}
    ensures exists t :: IsLeast(t, keys)
    decreases |keys|
  {
    var x :| x in keys;
    var rest := keys - {x};
    if rest == {} {
      assert keys == {x};
      assert IsLeast(x, keys);
    } else {
      LeastExists(rest);
      var t :| IsLeast(t, rest);
      LessTotal(t, x);
      StringOrder();
      assert IsLeast(if StringLess(x, t) then x else t, keys);
    }
  }

  // ---------------------------------------------------------------------------------------------
  // Resizing

  /** Every net parses. */
  predicate Readable(conns: Connections) {
    forall t :: t in conns ==> NameOf(conns[t]).Ok?
  }

  /** The walk over the connections gets past `t`: every net that does not parse comes later. */
  predicate Reached(conns: Connections, t: string) {
    forall u :: u in conns && NameOf(conns[u]).Err? ==> StringLess(t, u)
  }

  function ResizedNet(conns: Connections, t: string, k: nat): string
    requires t in conns
  {
    if NameOf(conns[t]).Ok? && Reached(conns, t) then RepeatedText(conns[t], k) else conns[t]
  }

  function RepeatedNets(conns: Connections, k: nat): (Connections, bool) {
    (map t | t in conns :: ResizedNet(conns, t, k), Readable(conns))
  }

  /** What resize_nets leaves, and whether it returns normally: it throws at the first net that does not
      parse, after rewriting those before it. */
  function Resized(conns: Connections, oldSize: nat, newSize: nat): (Connections, bool)
    requires oldSize > 0
  {
    if Remainder(newSize, oldSize) != 0 then (map[], true)
    else RepeatedNets(conns, Quotient(newSize, oldSize))
  }

  /** Resizing happens only when the size changes. */
  function AfterResize(conns: Connections, oldSize: nat, newSize: nat): (Connections, bool)
    requires oldSize > 0
  {
    if oldSize == newSize then (conns, true) else Resized(conns, oldSize, newSize)
  }

  predicate NetStorable(net: string, k: nat) {
    NameOf(net).Ok? ==> Storable(NameOf(net).value, k)
  }

  /** The size stays, or every net is dropped. */
  predicate NothingRepeated(oldSize: nat, newSize: nat)
    requires oldSize > 0
  {
    oldSize == newSize || Remainder(newSize, oldSize) != 0
  }

  /** Nothing is repeated, or every repeated net can be read back. */
  predicate ResizeStorable(conns: Connections, oldSize: nat, newSize: nat)
    requires oldSize > 0
  {
    NothingRepeated(oldSize, newSize) || forall t :: t in conns ==> NetStorable(conns[t], Quotient(newSize, oldSize))
  }

  predicate FitsTerms(conns: Connections, n: nat) {
    forall t :: t in conns ==> FitsTerm(n, t)
  }

  /** Resizing right nets never throws.  Each net that stays is right if and only if nothing is repeated or
      its own multiplier is storable. */
  lemma ResizedMeans(conns: Connections, oldSize: nat, newSize: nat)
    requires Sized(conns, oldSize) && oldSize > 0 && newSize > 0 && FitsTerms(conns, newSize)
    ensures var (c, ok) := AfterResize(conns, oldSize, newSize);
      && ok && c.Keys <= conns.Keys
      && (!NothingRepeated(oldSize, newSize) ==> c.Keys == conns.Keys)
      && forall t :: t in c ==>
        (SizedNet(newSize, t, c[t]) <==> NothingRepeated(oldSize, newSize) || NetStorable(conns[t], Quotient(newSize, oldSize)))
  {
    if !NothingRepeated(oldSize, newSize) {
      forall t | t in conns
        ensures ResizedNet(conns, t, Quotient(newSize, oldSize)) == RepeatedText(conns[t], Quotient(newSize, oldSize))
        ensures SizedNet(newSize, t, RepeatedText(conns[t], Quotient(newSize, oldSize)))
           <==> NetStorable(conns[t], Quotient(newSize, oldSize))
      {
        ReachedAll(conns, t, oldSize);
        ResizedNetMeans(conns[t], t, oldSize, newSize);
      }
    }
  }

  lemma ReachedAll(conns: Connections, t: string, oldSize: nat)
    requires Sized(conns, oldSize) && t in conns
    ensures SizedNet(oldSize, t, conns[t]) && Reached(conns, t) && Readable(conns)
  {
  }

  /** Resizing keeps every net right if and only if nothing is repeated or every repeated net is storable. */
  lemma ResizeKeeps(conns: Connections, oldSize: nat, newSize: nat)
    requires Sized(conns, oldSize) && oldSize > 0 && newSize > 0 && FitsTerms(conns, newSize)
    ensures Sized(AfterResize(conns, oldSize, newSize).0, newSize) <==> ResizeStorable(conns, oldSize, newSize)
  {
    ResizedMeans(conns, oldSize, newSize);
  }

  /** A resized net is the old bit list repeated. */
  lemma ResizedNetMeans(net: string, term: string, oldSize: nat, newSize: nat)
    requires SizedNet(oldSize, term, net) && oldSize > 0 && newSize > 0 && FitsTerm(newSize, term)
    requires Remainder(newSize, oldSize) == 0
    ensures var k := Quotient(newSize, oldSize);
      && (SizedNet(newSize, term, RepeatedText(net, k)) <==> Storable(NameOf(net).value, k))
      && (SizedNet(newSize, term, RepeatedText(net, k)) ==> NetBits(RepeatedText(net, k)) == Repeat(NetBits(net), k))
  {
    ScaledWidth(newSize, oldSize, UnitOf(term).value.Size());
    RepeatedToWidth(net, Quotient(newSize, oldSize), Times(newSize, UnitOf(term).value.Size()));
  }

  lemma ScaledWidth(newSize: nat, oldSize: nat, w: nat)
    requires newSize > 0 && oldSize > 0 && Remainder(newSize, oldSize) == 0
    ensures var k := Quotient(newSize, oldSize);
      k >= 1 && Times(k, Times(oldSize, w)) == Times(newSize, w)
  {
    QuotientBracket(newSize, oldSize);
    QuotientPositive(newSize, oldSize);
    TimesNested(Quotient(newSize, oldSize), oldSize, w);
  }

  class Instance {
    var connections: Connections

    constructor (connections: Connections)
      ensures this.connections == connections
    {
      this.connections := connections;
    }

    /** update_connection: the direct or the broadcast net is stored; a throw changes nothing. */
    method UpdateConnection(instSize: cnt, term: string, net: string) returns (ok: bool)
      requires FitsTerm(instSize, term) && FitsNet(net)
      modifies this
      ensures ok == Connected(instSize, term, net).Ok?
      ensures connections == if ok then old(connections)[term := Connected(instSize, term, net).value] else old(connections)
    {
      var nTerm, nNet := UnitOf(term), NameOf(net);
      if nTerm.Err? || nNet.Err? {
        return false;
      }
      ghost var bits := NetBits(net);
      WfDataFits(Group(nNet.value));
      var totSize: cnt := Times(instSize, nTerm.value.Size());
      var netSize := NameSize(nNet.value);
      if totSize == netSize {
        connections := connections[term := net];
      } else {
        var quot, rem := Quotient(totSize, netSize), Remainder(totSize, netSize);
        if rem != 0 {
          return false;
        }
        var text := NameToString(Repeated(nNet.value, quot));
        connections := connections[term := text];
      }
      return true;
    }

    /** Connects a list of terminals until one throws. */
    method ConnectEach(n: cnt, list: seq<(string, string)>) returns (ok: bool)
      requires forall p :: p in list ==> FitsTerm(n, p.0) && FitsNet(p.1)
      modifies this
      ensures (connections, ok) == ConnectAll(old(connections), n, list)
    {
      for k := 0 to |list|
        invariant ConnectAll(connections, n, list[k..]) == ConnectAll(old(connections), n, list)
      {
        assert list[k] in list && list[k..][1..] == list[k + 1..];
        var good := UpdateConnection(n, list[k].0, list[k].1);
        if !good {
          return false;
        }
      }
      return true;
    }

    /** resize_nets: every net is repeated in key order until one does not parse, or all are dropped. */
    method ResizeNets(oldSize: cnt, newSize: cnt) returns (ok: bool)
      requires oldSize > 0
      modifies this
      ensures (connections, ok) == Resized(old(connections), oldSize, newSize)
    {
      var quot, rem := Quotient(newSize, oldSize), Remainder(newSize, oldSize);
      if rem != 0 {
        connections := map[];
        return true;
      }
      ok := RepeatEach(quot);
    }

    /** The loop of resize_nets. */
    method RepeatEach(quot: cnt) returns (ok: bool)
      modifies this
      ensures (connections, ok) == RepeatedNets(old(connections), quot)
    {
      var conns := connections;
      var todo := conns.Keys;
      while todo != {}
        invariant Walked(conns, connections, todo, quot)
      {
        LeastExists(todo);
        var t :| IsLeast(t, todo);
        var net := NameOf(connections[t]);
        if net.Err? {
          WalkStops(conns, connections, todo, t, quot);
          return false;
        }
        var text := NameToString(Repeated(net.value, quot));
        WalkStep(conns, connections, todo, t, quot);
        connections := connections[t := text];
        todo := todo - {t};
      }
      WalkEnds(conns, connections, quot);
      return true;
    }
  }

  /** The nets under the keys that are not in `todo` have been rewritten, and those keys come first. */
  ghost predicate Walked(conns: Connections, now: Connections, todo: set<string>, k: nat) {
    && todo <= conns.Keys && now.Keys == conns.Keys
    && (forall t :: t in conns && t !in todo ==> NameOf(conns[t]).Ok? && now[t] == RepeatedText(conns[t], k))
    && (forall t :: t in todo ==> now[t] == conns[t])
    && (forall t, u :: t in conns && t !in todo && u in todo ==> StringLess(t, u))
  }

  lemma WalkStep(conns: Connections, now: Connections, todo: set<string>, t: string, k: nat)
    requires Walked(conns, now, todo, k) && IsLeast(t, todo) && NameOf(conns[t]).Ok?
    ensures Walked(conns, now[t := RepeatedText(conns[t], k)], todo - {t}, k)
  {
  }

  /** The walk stops at `t`: exactly the keys before it have been reached. */
  lemma WalkStops(conns: Connections, now: Connections, todo: set<string>, t: string, k: nat)
    requires Walked(conns, now, todo, k) && IsLeast(t, todo) && NameOf(conns[t]).Err?
    ensures (now, false) == RepeatedNets(conns, k)
  {
    forall u | u in conns
      ensures Reached(conns, u) <==> u !in todo
    {
      LessAsymmetric(t, u);
      LessIrreflexive(t);
    }
    WalkResult(conns, now, todo, k);
    assert !Readable(conns);
  }

  lemma WalkEnds(conns: Connections, now: Connections, k: nat)
    requires Walked(conns, now, {}, k)
    ensures (now, true) == RepeatedNets(conns, k)
  {
    assert Readable(conns);
    WalkResult(conns, now, {}, k);
  }

  lemma WalkResult(conns: Connections, now: Connections, todo: set<string>, k: nat)
    requires Walked(conns, now, todo, k)
    requires forall u :: u in conns ==> (Reached(conns, u) <==> u !in todo)
    ensures now == RepeatedNets(conns, k).0
  {
    forall u | u in conns
      ensures now[u] == ResizedNet(conns, u, k)
    {
    }
  }

  // ---------------------------------------------------------------------------------------------
  // Several connections in a row

  /** The loop of copy_instance over the new connections; a throw keeps what was done before it. */
  function ConnectAll(conns: Connections, n: nat, list: seq<(string, string)>): (Connections, bool)
    decreases |list|
  {
    if list == [] then (conns, true)
    else
      match Connected(n, list[0].0, list[0].1)
      case Err => (conns, false)
      case Ok(text) => ConnectAll(conns[list[0].0 := text], n, list[1..])
  }

  /** How many connections are made before the first one that throws. */
  function Made(n: nat, list: seq<(string, string)>): (k: nat)
    ensures k <= |list|
  {
    if list == [] || !Connects(n, list[0].0, list[0].1) then 0 else 1 + Made(n, list[1..])
  }

  /** One of the connections made is for terminal `t`. */
  predicate Replaced(n: nat, list: seq<(string, string)>, t: string) {
    exists i :: 0 <= i < Made(n, list) && list[i].0 == t
  }

  /** Connection `i` is made, and none made after it is for the same terminal. */
  predicate Lasts(n: nat, list: seq<(string, string)>, i: nat) {
    i < Made(n, list) && forall j :: i < j < Made(n, list) ==> list[j].0 != list[i].0
  }

  /** Every connection that lasts can be read back. */
  predicate LastingStorable(n: nat, list: seq<(string, string)>) {
    forall i :: 0 <= i < |list| && Lasts(n, list, i) ==> ConnStorable(n, list[i].0, list[i].1)
  }

  /** Every old net that is not replaced is right. */
  predicate OthersSized(conns: Connections, n: nat, list: seq<(string, string)>) {
    forall t :: t in conns && !Replaced(n, list, t) ==> SizedNet(n, t, conns[t])
  }

  predicate FitsList(n: nat, list: seq<(string, string)>) {
    forall p :: p in list ==> FitsTerm(n, p.0) && FitsNet(p.1)
  }

  lemma ReplacedNext(n: nat, list: seq<(string, string)>, t: string)
    requires list != [] && Connects(n, list[0].0, list[0].1)
    ensures Replaced(n, list, t) <==> t == list[0].0 || Replaced(n, list[1..], t)
  {
    var rest := list[1..];
    if i :| 0 <= i < Made(n, rest) && rest[i].0 == t {
      assert list[i + 1].0 == t;
    }
    if i :| 0 <= i < Made(n, list) && list[i].0 == t {
      assert i > 0 ==> rest[i - 1].0 == t;
    }
  }

  lemma LastsNext(n: nat, list: seq<(string, string)>)
    requires list != [] && Connects(n, list[0].0, list[0].1)
    ensures Lasts(n, list, 0) <==> !Replaced(n, list[1..], list[0].0)
    ensures forall i: nat :: i < |list| - 1 ==> (Lasts(n, list, i + 1) <==> Lasts(n, list[1..], i))
  {
    var rest := list[1..];
    if j :| 0 <= j < Made(n, rest) && rest[j].0 == list[0].0 {
      assert list[j + 1].0 == list[0].0;
    }
    if !Replaced(n, rest, list[0].0) {
      assert forall j :: 0 < j < Made(n, list) ==> list[j] == rest[j - 1];
    }
    forall i: nat | i < |rest|
      ensures Lasts(n, list, i + 1) <==> Lasts(n, rest, i)
    {
      LastsLater(n, list, i);
    }
  }

  lemma LastsLater(n: nat, list: seq<(string, string)>, i: nat)
    requires i < |list| - 1 && Connects(n, list[0].0, list[0].1)
    ensures Lasts(n, list, i + 1) <==> Lasts(n, list[1..], i)
  {
    var rest := list[1..];
    if Lasts(n, list, i + 1) {
      assert forall j :: i < j < Made(n, rest) ==> rest[j].0 == list[j + 1].0;
    }
    if Lasts(n, rest, i) {
      assert forall j :: i + 1 < j < Made(n, list) ==> list[j].0 == rest[j - 1].0;
    }
  }

  lemma LastingNext(n: nat, list: seq<(string, string)>)
    requires list != [] && Connects(n, list[0].0, list[0].1)
    ensures LastingStorable(n, list) <==>
      LastingStorable(n, list[1..]) && (Lasts(n, list, 0) ==> ConnStorable(n, list[0].0, list[0].1))
  {
    LastsNext(n, list);
    var rest := list[1..];
    assert forall i: nat :: i < |rest| ==> rest[i] == list[i + 1];
    if LastingStorable(n, rest) && (Lasts(n, list, 0) ==> ConnStorable(n, list[0].0, list[0].1)) {
      forall i: nat | i < |list| && Lasts(n, list, i)
        ensures ConnStorable(n, list[i].0, list[i].1)
      {
        if i > 0 {
          assert Lasts(n, rest, i - 1);
        }
      }
    }
    if LastingStorable(n, list) {
      forall i: nat | i < |rest| && Lasts(n, rest, i)
        ensures ConnStorable(n, rest[i].0, rest[i].1)
      {
        assert Lasts(n, list, i + 1);
      }
    }
  }

  /** After the loop every net is right if and only if the untouched ones were and the lasting ones can
      be read back; and the loop returns normally if and only if every connection is made. */
  lemma {:induction false} ConnectAllMeans(conns: Connections, n: nat, list: seq<(string, string)>)
    requires n >= 1 && FitsList(n, list)
    ensures Sized(ConnectAll(conns, n, list).0, n) <==> OthersSized(conns, n, list) && LastingStorable(n, list)
    ensures ConnectAll(conns, n, list).1 <==> Made(n, list) == |list|
    decreases |list|
  {
    if list != [] {
      var (term, net) := list[0];
      ConnectedSucceeds(n, term, net);
      if Connects(n, term, net) {
        assert list[0] in list;
        ConnectedMeans(n, term, net);
        var conns' := conns[term := Connected(n, term, net).value];
        ConnectAllMeans(conns', n, list[1..]);
        LastingNext(n, list);
        OthersNext(conns, n, list);
      }
    }
  }

  lemma OthersNext(conns: Connections, n: nat, list: seq<(string, string)>)
    requires n >= 1 && list != [] && FitsTerm(n, list[0].0) && Connects(n, list[0].0, list[0].1)
    ensures Connected(n, list[0].0, list[0].1).Ok?
    ensures OthersSized(conns[list[0].0 := Connected(n, list[0].0, list[0].1).value], n, list[1..]) <==>
      OthersSized(conns, n, list) && (Lasts(n, list, 0) ==> ConnStorable(n, list[0].0, list[0].1))
  {
    var (term, net) := list[0];
    ConnectedMeans(n, term, net);
    LastsNext(n, list);
    forall t
      ensures Replaced(n, list, t) <==> t == term || Replaced(n, list[1..], t)
    {
      ReplacedNext(n, list, t);
    }
    var conns' := conns[term := Connected(n, term, net).value];
    assert term in conns';
    assert forall t :: t in conns && t != term ==> t in conns' && conns'[t] == conns[t];
  }

  // ---------------------------------------------------------------------------------------------
  // A net that cannot be stored

  lemma TermReads(nu: NameUnit, term: string)
    requires WfUnit(nu) && term == UnitText(nu)
    ensures UnitOf(term).Ok? && UnitOf(term).value.Size() == nu.Size()
  {
    UnitReads(nu, []);
    assert term + [] == term;
    WfUnitFits(UnitOf(term).value);
    WfUnitFits(nu);
  }

  lemma ScalarReads(nu: NameUnit, net: string)
    requires WfUnit(nu) && !nu.IsVector() && net == nu.base
    ensures NameOf(net).Ok? && |NetBits(net)| == 1
  {
    var nr := NameRep(1, Unit(nu));
    var na := Name([nr]);
    assert RepText(nr) == DataText(nr.data) == UnitText(nu) == net;
    assert ListText([nr]) == RepText(nr);
    PrintParse(na);
    SingleBits(na.repList[0]);
    RepeatOnce(UnitBits(nu));
  }

  /** A net of one bit, broadcast over 2^32 bits, is stored as text that cannot be read back. */
  lemma WideBroadcast(term: string, net: string)
    requires UnitOf(term).Ok? && UnitOf(term).value.Size() == TWO32
    requires NameOf(net).Ok? && |NetBits(net)| == 1
    ensures FitsTerm(1, term) && FitsNet(net) && Connects(1, term, net)
    ensures Connected(1, term, net).Ok? && NameOf(Connected(1, term, net).value).Err?
  {
    TimesIsProduct(1, TWO32);
    TimesIsProduct(TWO32, 1);
    QuotientIsDiv(TWO32, 1);
    ConnectedSucceeds(1, term, net);
    NotStorable(net, TWO32);
  }

  /** A net that is repeated 2^32 times or more. */
  lemma NotStorable(net: string, k: nat)
    requires NameOf(net).Ok? && TWO32 <= k && Times(k, |NetBits(net)|) < TWO63
    ensures NameOf(RepeatedText(net, k)).Err?
  {
    var na := NameOf(net).value;
    TimesGrows(k, |NetBits(net)|);
    RepeatedTextMeans(net, k);
    if |na.repList| == 1 {
      assert WfRep(na.repList[0]);
      TimesMono(1, na.repList[0].mult, 1);
      TimesGrows(k, na.repList[0].mult);
    }
  }

  lemma NumeralStep(n: nat, prefix: string, c: char)
    requires n >= 10 && Numeral(n / 10) == prefix && c == DigitChar(n % 10)
    ensures Numeral(n) == prefix + [c]
  {
  }

  lemma HugeNumeral()
    ensures Numeral(4294967295) == "4294967295"
  {
    assert Numeral(429) == "429";
    NumeralStep(4294, "429", '4');
    NumeralStep(42949, "4294", '9');
    NumeralStep(429496, "42949", '6');
    NumeralStep(4294967, "429496", '7');
    NumeralStep(42949672, "4294967", '2');
    NumeralStep(429496729, "42949672", '9');
    NumeralStep(4294967295, "429496729", '5');
  }

  lemma StepOneSize(r: Range)
    requires r.start <= r.stop < TWO32 && r.step == 1
    ensures r.Size() == r.stop - r.start + 1
  {
    QuotientIsDiv(r.stop - r.start + 1, 1);
  }

  lemma SpanText(nu: NameUnit, start: string, stop: string)
    requires WfUnit(nu) && nu.idxRange.start < nu.idxRange.stop && nu.idxRange.step == 1
    requires Numeral(nu.idxRange.start) == start && Numeral(nu.idxRange.stop) == stop
    ensures nu.Size() == nu.idxRange.stop - nu.idxRange.start + 1
    ensures UnitText(nu) == nu.base + ("<" + (start + (":" + (stop + ">"))))
  {
    StepOneSize(nu.idxRange);
  }

  lemma HugeText()
    ensures "a" + ("<" + ("0" + (":" + ("4294967295" + ">")))) == "a<0:4294967295>"
  {
  }

  lemma HugeTerm(term: string, last: nat)
    requires last == 4294967295 && term == "a<0:4294967295>"
    ensures UnitOf(term).Ok? && UnitOf(term).value.Size() == TWO32
  {
    var nu := NameUnit("a", Range(0, last, 1));
    HugeNumeral();
    assert Numeral(nu.idxRange.start) == "0";
    SpanText(nu, "0", "4294967295");
    HugeText();
    TermReads(nu, term);
  }

  /** For instance: connecting terminal `a<0:4294967295>` of a single instance to net `b`. */
  lemma HugeBroadcast(term: string, net: string)
    requires term == "a<0:4294967295>" && net == "b"
    ensures FitsTerm(1, term) && FitsNet(net) && Connects(1, term, net)
    ensures Connected(1, term, net).Ok? && NameOf(Connected(1, term, net).value).Err?
  {
    HugeTerm(term, 4294967295);
    ScalarReads(NameUnit("b", Range(0, 0, 0)), net);
    WideBroadcast(term, net);
  }
}
