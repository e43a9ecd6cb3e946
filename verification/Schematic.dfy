/** Schematic edits: renaming, copying and arraying instances and connecting their terminals
    (schematic/cellview.cpp, schematic/cellview_inst_mod.h).

    Each edit is specified by a function from instance map to instance map, throws included.  The
    invariant is that every stored net has as many bits as the instance has elements times the width
    of the terminal; every edit, and every run of edits, is proved to keep it if and only if each net
    that it repeats, and that stays, can be stored.
 */
module Schematic {
  import opened Arithmetic
  import opened Counts
  import opened Sequences
  import opened NameAst
  import opened NameGrammar
  import opened RoundTrip
  import opened InstanceNets
  import Netlist
  import SortedMaps

  /** Connections by instance name. */
  type Insts = map<string, Connections>

  /** A new name and the connections to make there. */
  type NameConns = (string, seq<(string, string)>)

  /** Number of elements of an instance name. */
  function InstSize(name: string): (n: nat)
    requires RepOf(name).Ok?
    ensures n >= 1
  {
    var nr := RepOf(name).value;
    WfDataHasBits(nr.data);
    RepeatLength(DataBits(nr.data), nr.mult);
    TimesMono(1, nr.mult, |DataBits(nr.data)|);
    |RepBits(nr)|
  }

  /** Instance names parse, and every stored net has the right width. */
  predicate Consistent(m: Insts) {
    forall x :: x in m ==> RepOf(x).Ok? && Sized(m[x], InstSize(x))
  }

  /** One instance more, or replaced. */
  lemma PutConsistent(m: Insts, name: string, conns: Connections)
    requires Consistent(m) && RepOf(name).Ok?
    ensures Consistent(m[name := conns]) <==> Sized(conns, InstSize(name))
  {
    var m' := m[name := conns];
    assert name in m' && m'[name] == conns;
    assert forall x :: x in m' && x != name ==> x in m && m'[x] == m[x];
  }

  // ---------------------------------------------------------------------------------------------
  // Edits: the instances afterwards, and whether the call returns normally

  datatype Edit =
    | Connect(inst: string, term: string, net: string)
    | RenameInst(oldName: string, newName: string)
    | CopyInst(source: string, newName: string, conns: seq<(string, string)>)
    | ArrayInst(oldName: string, copies: seq<NameConns>)
    | RemoveInst(inst: string)

  function ConnectTo(m: Insts, inst: string, term: string, net: string): (Insts, bool) {
    if inst !in m || UnitOf(inst).Err? then (m, false)
    else
      match Connected(UnitOf(inst).value.Size(), term, net)
      case Err => (m, false)
      case Ok(text) => (m[inst := m[inst][term := text]], true)
  }

  /** The key is replaced before the old name is parsed, so an old name that does not parse is renamed
      although the call throws. */
  function Rename(m: Insts, oldName: string, newName: string): (Insts, bool) {
    if newName in m || RepOf(newName).Err? || oldName !in m then (m, false)
    else if RepOf(oldName).Err? then ((m - {oldName})[newName := m[oldName]], false)
    else
      var (c, ok) := AfterResize(m[oldName], InstSize(oldName), InstSize(newName));
      ((m - {oldName})[newName := c], ok)
  }

  /** A copy of `conns` under a new name; what was done before a throw stays. */
  function Copy(m: Insts, conns: Connections, oldSize: nat, newName: string, list: seq<(string, string)>): (Insts, bool)
    requires oldSize > 0
  {
    if RepOf(newName).Err? || newName in m then (m, false)
    else
      var n := InstSize(newName);
      var (c, ok) := AfterResize(conns, oldSize, n);
      if !ok then (m[newName := c], false)
      else
        var r := ConnectAll(c, n, list);
        (m[newName := r.0], r.1)
  }

  /** The loop of array_instance; a throw ends it. */
  function CopyAll(m: Insts, conns: Connections, oldSize: nat, copies: seq<NameConns>): (Insts, bool)
    requires oldSize > 0
    decreases |copies|
  {
    if copies == [] then (m, true)
    else
      var (m1, ok) := Copy(m, conns, oldSize, copies[0].0, copies[0].1);
      if !ok then (m1, false) else CopyAll(m1, conns, oldSize, copies[1..])
  }

  /** Copies, then the original goes; after a throw the original stays. */
  function Arrayed(m: Insts, oldName: string, copies: seq<NameConns>): (Insts, bool) {
    if oldName !in m || RepOf(oldName).Err? then (m, false)
    else
      var (m1, ok) := CopyAll(m, m[oldName], InstSize(oldName), copies);
      if ok then (m1 - {oldName}, true) else (m1, false)
  }

  function Outcome(m: Insts, e: Edit): (Insts, bool) {
    match e
    case Connect(inst, term, net) => ConnectTo(m, inst, term, net)
    case RenameInst(oldName, newName) => Rename(m, oldName, newName)
    case CopyInst(source, newName, conns) =>
      if source !in m || RepOf(source).Err? then (m, false) else Copy(m, m[source], InstSize(source), newName, conns)
    case ArrayInst(oldName, copies) => Arrayed(m, oldName, copies)
    case RemoveInst(inst) => (m - {inst}, inst in m)
  }

  function Apply(m: Insts, e: Edit): Insts {
    Outcome(m, e).0
  }

  // ---------------------------------------------------------------------------------------------
  // Sizes that 63 bits hold

  predicate FitsInst(name: string) {
    RepOf(name).Ok? ==> InstSize(name) < TWO63
  }

  predicate FitsResize(name: string, conns: Connections) {
    RepOf(name).Ok? ==> InstSize(name) < TWO63 && FitsTerms(conns, InstSize(name))
  }

  predicate FitsCopy(conns: Connections, name: string, list: seq<(string, string)>) {
    FitsResize(name, conns) && (RepOf(name).Ok? ==> FitsList(InstSize(name), list))
  }

  predicate FitsCopies(conns: Connections, copies: seq<NameConns>) {
    forall c :: c in copies ==> FitsCopy(conns, c.0, c.1)
  }

  /** Every size and width that the edit computes. */
  predicate FitsEdit(m: Insts, e: Edit) {
    match e
    case Connect(inst, term, net) => FitsNet(net) && (UnitOf(inst).Ok? ==> FitsTerm(UnitOf(inst).value.Size(), term))
    case RenameInst(oldName, newName) => FitsInst(oldName) && FitsInst(newName) && (oldName in m ==> FitsResize(newName, m[oldName]))
    case CopyInst(source, newName, conns) => FitsInst(source) && (source in m ==> FitsCopy(m[source], newName, conns))
    case ArrayInst(oldName, copies) => FitsInst(oldName) && (oldName in m ==> FitsCopies(m[oldName], copies))
    case RemoveInst(_) => true
  }

  // ---------------------------------------------------------------------------------------------
  // When the invariant is kept

  /** Every net of the copy that is repeated, and not replaced, can be read back, and so can every
      connection that lasts. */
  predicate CopyStorable(conns: Connections, oldSize: nat, newName: string, list: seq<(string, string)>)
    requires oldSize > 0 && RepOf(newName).Ok?
  {
    var n := InstSize(newName);
    && (NothingRepeated(oldSize, n)
        || forall t :: t in conns && !Replaced(n, list, t) ==> NetStorable(conns[t], Quotient(n, oldSize)))
    && LastingStorable(n, list)
  }

  lemma CopyMeans(m: Insts, conns: Connections, oldSize: nat, newName: string, list: seq<(string, string)>)
    requires Consistent(m) && Sized(conns, oldSize) && oldSize > 0 && FitsCopy(conns, newName, list)
    requires RepOf(newName).Ok? && newName !in m
    ensures Consistent(Copy(m, conns, oldSize, newName, list).0) <==> CopyStorable(conns, oldSize, newName, list)
    ensures Copy(m, conns, oldSize, newName, list).1 <==> Made(InstSize(newName), list) == |list|
  {
    var n := InstSize(newName);
    var (c, ok) := AfterResize(conns, oldSize, n);
    ResizedMeans(conns, oldSize, n);
    ConnectAllMeans(c, n, list);
    PutConsistent(m, newName, ConnectAll(c, n, list).0);
    CopyOthers(conns, oldSize, n, list);
  }

  lemma CopyOthers(conns: Connections, oldSize: nat, n: nat, list: seq<(string, string)>)
    requires Sized(conns, oldSize) && oldSize > 0 && n > 0 && FitsTerms(conns, n)
    ensures OthersSized(AfterResize(conns, oldSize, n).0, n, list) <==>
      NothingRepeated(oldSize, n)
      || forall t :: t in conns && !Replaced(n, list, t) ==> NetStorable(conns[t], Quotient(n, oldSize))
  {
    ResizedMeans(conns, oldSize, n);
  }

  /** A copy adds at most one entry and changes none. */
  lemma CopyExtends(m: Insts, conns: Connections, oldSize: nat, newName: string, list: seq<(string, string)>)
    requires oldSize > 0
    ensures var r := Copy(m, conns, oldSize, newName, list).0;
      && (forall x :: x in m ==> x in r && r[x] == m[x])
      && r.Keys == if RepOf(newName).Ok? then m.Keys + {newName} else m.Keys
  {
  }

  lemma {:induction false} CopyAllExtends(m: Insts, conns: Connections, oldSize: nat, copies: seq<NameConns>)
    requires oldSize > 0
    ensures var r := CopyAll(m, conns, oldSize, copies).0;
      forall x :: x in m ==> x in r && r[x] == m[x]
    decreases |copies|
  {
    if copies != [] {
      CopyExtends(m, conns, oldSize, copies[0].0, copies[0].1);
      CopyAllExtends(Copy(m, conns, oldSize, copies[0].0, copies[0].1).0, conns, oldSize, copies[1..]);
    }
  }

  /** The name of copy `i` parses, is not taken, and is not the name of an earlier copy. */
  predicate Fresh(taken: set<string>, copies: seq<NameConns>, i: nat)
    requires i < |copies|
  {
    RepOf(copies[i].0).Ok? && copies[i].0 !in taken && forall j :: 0 <= j < i ==> copies[j].0 != copies[i].0
  }

  /** Copy `i` has a fresh name and makes all its connections. */
  predicate Succeeds(taken: set<string>, copies: seq<NameConns>, i: nat)
    requires i < |copies|
  {
    Fresh(taken, copies, i) && Made(InstSize(copies[i].0), copies[i].1) == |copies[i].1|
  }

  /** Copy `i` is begun: its name is fresh and every copy before it succeeds. */
  predicate Created(taken: set<string>, copies: seq<NameConns>, i: nat)
    requires i < |copies|
  {
    Fresh(taken, copies, i) && forall j :: 0 <= j < i ==> Succeeds(taken, copies, j)
  }

  /** Every copy that is begun can be stored. */
  predicate CopiesStorable(taken: set<string>, conns: Connections, oldSize: nat, copies: seq<NameConns>)
    requires oldSize > 0
  {
    forall i :: 0 <= i < |copies| && Created(taken, copies, i) ==> CopyStorable(conns, oldSize, copies[i].0, copies[i].1)
  }

  lemma FreshNext(taken: set<string>, copies: seq<NameConns>, i: nat)
    requires i + 1 < |copies|
    ensures Fresh(taken, copies, i + 1) <==> Fresh(taken + {copies[0].0}, copies[1..], i)
  {
    var rest := copies[1..];
    if Fresh(taken, copies, i + 1) {
      assert forall j :: 0 <= j < i ==> rest[j].0 == copies[j + 1].0;
    }
    if Fresh(taken + {copies[0].0}, rest, i) {
      forall j | 0 <= j < i + 1
        ensures copies[j].0 != copies[i + 1].0
      {
        assert j > 0 ==> rest[j - 1].0 == copies[j].0;
      }
    }
  }

  lemma CreatedNext(taken: set<string>, copies: seq<NameConns>, i: nat)
    requires i + 1 < |copies| && Succeeds(taken, copies, 0)
    ensures Created(taken, copies, i + 1) <==> Created(taken + {copies[0].0}, copies[1..], i)
  {
    var rest, taken' := copies[1..], taken + {copies[0].0};
    forall j | 0 <= j <= i
      ensures Fresh(taken, copies, j + 1) <==> Fresh(taken', rest, j)
      ensures Succeeds(taken, copies, j + 1) <==> Succeeds(taken', rest, j)
    {
      FreshNext(taken, copies, j);
      assert rest[j] == copies[j + 1];
    }
    if Created(taken', rest, i) {
      forall j | 0 <= j < i + 1
        ensures Succeeds(taken, copies, j)
      {
        assert j > 0 ==> Succeeds(taken', rest, j - 1);
      }
    }
    if Created(taken, copies, i + 1) {
      forall j | 0 <= j < i
        ensures Succeeds(taken', rest, j)
      {
        assert Succeeds(taken, copies, j + 1);
      }
    }
  }

  lemma CopiesNext(taken: set<string>, conns: Connections, oldSize: nat, copies: seq<NameConns>)
    requires oldSize > 0 && copies != [] && Succeeds(taken, copies, 0)
    ensures CopiesStorable(taken, conns, oldSize, copies) <==>
      CopyStorable(conns, oldSize, copies[0].0, copies[0].1)
      && CopiesStorable(taken + {copies[0].0}, conns, oldSize, copies[1..])
  {
    var rest, taken' := copies[1..], taken + {copies[0].0};
    forall i | 0 <= i < |rest|
      ensures rest[i] == copies[i + 1] && (Created(taken, copies, i + 1) <==> Created(taken', rest, i))
    {
      CreatedNext(taken, copies, i);
    }
    assert Created(taken, copies, 0);
    if CopyStorable(conns, oldSize, copies[0].0, copies[0].1) && CopiesStorable(taken', conns, oldSize, rest) {
      forall i | 0 <= i < |copies| && Created(taken, copies, i)
        ensures CopyStorable(conns, oldSize, copies[i].0, copies[i].1)
      {
        assert i > 0 ==> Created(taken', rest, i - 1);
      }
    }
    if CopiesStorable(taken, conns, oldSize, copies) {
      forall i | 0 <= i < |rest| && Created(taken', rest, i)
        ensures CopyStorable(conns, oldSize, rest[i].0, rest[i].1)
      {
        assert Created(taken, copies, i + 1);
      }
    }
  }

  /** Without a success at the head nothing after it is begun. */
  lemma CopiesStop(taken: set<string>, conns: Connections, oldSize: nat, copies: seq<NameConns>)
    requires oldSize > 0 && copies != [] && !Succeeds(taken, copies, 0)
    ensures CopiesStorable(taken, conns, oldSize, copies) <==>
      (Fresh(taken, copies, 0) ==> CopyStorable(conns, oldSize, copies[0].0, copies[0].1))
  {
    OnlyHead(taken, copies);
    assert CopiesStorable(taken, conns, oldSize, copies)
      ==> Created(taken, copies, 0) ==> CopyStorable(conns, oldSize, copies[0].0, copies[0].1);
  }

  lemma OnlyHead(taken: set<string>, copies: seq<NameConns>)
    requires copies != [] && !Succeeds(taken, copies, 0)
    ensures forall i :: 0 <= i < |copies| && Created(taken, copies, i) ==> i == 0 && Fresh(taken, copies, 0)
    ensures Fresh(taken, copies, 0) ==> Created(taken, copies, 0)
  {
  }

  /** Any sequence of copies keeps the invariant if and only if every copy that is begun can be stored. */
  lemma {:induction false} CopyAllMeans(m: Insts, conns: Connections, oldSize: nat, copies: seq<NameConns>)
    requires Consistent(m) && Sized(conns, oldSize) && oldSize > 0 && FitsCopies(conns, copies)
    ensures Consistent(CopyAll(m, conns, oldSize, copies).0) <==> CopiesStorable(m.Keys, conns, oldSize, copies)
    decreases |copies|
  {
    if copies != [] {
      var c := copies[0];
      assert c in copies;
      var (m1, ok) := Copy(m, conns, oldSize, c.0, c.1);
      HeadMeans(m, conns, oldSize, copies);
      if !ok {
        CopiesStop(m.Keys, conns, oldSize, copies);
      } else {
        CopiesNext(m.Keys, conns, oldSize, copies);
        CopyExtends(m, conns, oldSize, c.0, c.1);
        if Consistent(m1) {
          CopyAllMeans(m1, conns, oldSize, copies[1..]);
        } else {
          StaysInconsistent(m1, conns, oldSize, copies[1..]);
        }
      }
    }
  }

  /** Copies repair nothing. */
  lemma StaysInconsistent(m: Insts, conns: Connections, oldSize: nat, copies: seq<NameConns>)
    requires !Consistent(m) && oldSize > 0
    ensures !Consistent(CopyAll(m, conns, oldSize, copies).0)
  {
    CopyAllExtends(m, conns, oldSize, copies);
    var x :| x in m && !(RepOf(x).Ok? && Sized(m[x], InstSize(x)));
    assert x in CopyAll(m, conns, oldSize, copies).0;
  }

  /** The first copy on its own. */
  lemma HeadMeans(m: Insts, conns: Connections, oldSize: nat, copies: seq<NameConns>)
    requires Consistent(m) && Sized(conns, oldSize) && oldSize > 0 && FitsCopies(conns, copies) && copies != []
    ensures var (m1, ok) := Copy(m, conns, oldSize, copies[0].0, copies[0].1);
      && (ok <==> Succeeds(m.Keys, copies, 0))
      && (Consistent(m1) <==> (Fresh(m.Keys, copies, 0) ==> CopyStorable(conns, oldSize, copies[0].0, copies[0].1)))
  {
    assert copies[0] in copies;
    if Fresh(m.Keys, copies, 0) {
      CopyMeans(m, conns, oldSize, copies[0].0, copies[0].1);
    }
  }

  /** Every net that the edit repeats, and that stays, can be stored.  A caller can decide this before the
      call from the parsed names alone. */
  predicate EditStorable(m: Insts, e: Edit) {
    match e
    case Connect(inst, term, net) =>
      inst in m && UnitOf(inst).Ok? ==> ConnStorable(UnitOf(inst).value.Size(), term, net)
    case RenameInst(oldName, newName) =>
      newName !in m && RepOf(newName).Ok? && oldName in m && RepOf(oldName).Ok? ==>
        ResizeStorable(m[oldName], InstSize(oldName), InstSize(newName))
    case CopyInst(source, newName, conns) =>
      source in m && RepOf(source).Ok? && RepOf(newName).Ok? && newName !in m ==>
        CopyStorable(m[source], InstSize(source), newName, conns)
    case ArrayInst(oldName, copies) =>
      oldName in m && RepOf(oldName).Ok? ==> CopiesStorable(m.Keys, m[oldName], InstSize(oldName), copies)
    case RemoveInst(_) => true
  }

  /** A name unit is also a repeated name, of the same size. */
  lemma UnitIsRep(name: string)
    requires UnitOf(name).Ok?
    ensures RepOf(name).Ok? && InstSize(name) == UnitOf(name).value.Size()
  {
    var nu := UnitOf(name).value;
    NoTag(name);
    PlainUnit(name);
    RepeatOnce(UnitBits(nu));
    assert RepOf(name).value == NameRep(1, Unit(nu)) && DataBits(Unit(nu)) == UnitBits(nu);
    WfUnitFits(nu);
  }

  lemma ConnectMeans(m: Insts, inst: string, term: string, net: string)
    requires Consistent(m) && inst in m && UnitOf(inst).Ok? && FitsTerm(UnitOf(inst).value.Size(), term)
    ensures Consistent(ConnectTo(m, inst, term, net).0) <==> ConnStorable(UnitOf(inst).value.Size(), term, net)
  {
    UnitIsRep(inst);
    var n := InstSize(inst);
    ConnectedSucceeds(n, term, net);
    if Connects(n, term, net) {
      ConnectedMeans(n, term, net);
      var text := Connected(n, term, net).value;
      var conns := m[inst][term := text];
      assert Sized(m[inst], n);
      assert Sized(conns, n) <==> SizedNet(n, term, text) by {
        assert term in conns && conns[term] == text;
      }
      PutConsistent(m, inst, conns);
    }
  }

  lemma RenameMeans(m: Insts, oldName: string, newName: string)
    requires Consistent(m) && oldName in m && newName !in m && RepOf(newName).Ok? && FitsResize(newName, m[oldName])
    ensures Consistent(Rename(m, oldName, newName).0) <==> ResizeStorable(m[oldName], InstSize(oldName), InstSize(newName))
  {
    var n0, n1 := InstSize(oldName), InstSize(newName);
    ResizeKeeps(m[oldName], n0, n1);
    PutConsistent(m - {oldName}, newName, AfterResize(m[oldName], n0, n1).0);
  }

  lemma ArrayMeans(m: Insts, oldName: string, copies: seq<NameConns>)
    requires Consistent(m) && oldName in m && FitsCopies(m[oldName], copies)
    ensures Consistent(Arrayed(m, oldName, copies).0) <==> CopiesStorable(m.Keys, m[oldName], InstSize(oldName), copies)
  {
    var n := InstSize(oldName);
    var (m1, ok) := CopyAll(m, m[oldName], n, copies);
    CopyAllMeans(m, m[oldName], n, copies);
    CopyAllExtends(m, m[oldName], n, copies);
    DropKeeps(m1, oldName);
  }

  /** Dropping an instance with right nets makes no difference. */
  lemma DropKeeps(m: Insts, name: string)
    requires name in m && RepOf(name).Ok? && Sized(m[name], InstSize(name))
    ensures Consistent(m) <==> Consistent(m - {name})
  {
    var rest := m - {name};
    assert forall x :: x in m && x != name ==> x in rest && rest[x] == m[x];
  }

  /** Each of the five edits keeps the invariant if and only if what it repeats can be stored. */
  lemma EditMeans(m: Insts, e: Edit)
    requires Consistent(m) && FitsEdit(m, e)
    ensures Consistent(Apply(m, e)) <==> EditStorable(m, e)
  {
    match e
    case Connect(inst, term, net) =>
      if inst in m && UnitOf(inst).Ok? {
        ConnectMeans(m, inst, term, net);
      }
    case RenameInst(oldName, newName) =>
      if newName !in m && RepOf(newName).Ok? && oldName in m {
        RenameMeans(m, oldName, newName);
      }
    case CopyInst(source, newName, conns) =>
      if source in m && RepOf(newName).Ok? && newName !in m {
        CopyMeans(m, m[source], InstSize(source), newName, conns);
      }
    case ArrayInst(oldName, copies) =>
      if oldName in m {
        ArrayMeans(m, oldName, copies);
      }
    case RemoveInst(inst) =>
  }

  // ---------------------------------------------------------------------------------------------
  // Runs of edits

  function Run(m: Insts, edits: seq<Edit>): Insts
    decreases |edits|
  {
    if edits == [] then m else Run(Apply(m, edits[0]), edits[1..])
  }

  predicate FitsRun(m: Insts, edits: seq<Edit>)
    decreases |edits|
  {
    edits == [] || (FitsEdit(m, edits[0]) && FitsRun(Apply(m, edits[0]), edits[1..]))
  }

  /** The state before edit `i`. */
  function Before(m: Insts, edits: seq<Edit>, i: nat): Insts
    requires i <= |edits|
  {
    Run(m, edits[..i])
  }

  /** The invariant holds at the start, between any two edits, and at the end. */
  predicate AlwaysConsistent(m: Insts, edits: seq<Edit>) {
    forall i :: 0 <= i <= |edits| ==> Consistent(Before(m, edits, i))
  }

  /** Every edit of the run, in the state it meets, repeats only what can be stored. */
  predicate AlwaysStorable(m: Insts, edits: seq<Edit>) {
    forall i :: 0 <= i < |edits| ==> EditStorable(Before(m, edits, i), edits[i])
  }

  lemma BeforeNext(m: Insts, edits: seq<Edit>, i: nat)
    requires i < |edits|
    ensures Before(m, edits, i + 1) == Before(Apply(m, edits[0]), edits[1..], i)
  {
    assert edits[..i + 1][1..] == edits[1..][..i];
  }

  lemma AlwaysNext(m: Insts, edits: seq<Edit>)
    requires edits != []
    ensures AlwaysConsistent(m, edits) <==> Consistent(m) && AlwaysConsistent(Apply(m, edits[0]), edits[1..])
    ensures AlwaysStorable(m, edits) <==> EditStorable(m, edits[0]) && AlwaysStorable(Apply(m, edits[0]), edits[1..])
  {
    var m1, rest := Apply(m, edits[0]), edits[1..];
    assert Before(m, edits, 0) == m;
    forall i | 0 <= i < |edits|
      ensures Before(m, edits, i + 1) == Before(m1, rest, i)
    {
      BeforeNext(m, edits, i);
    }
    if Consistent(m) && AlwaysConsistent(m1, rest) {
      forall i | 0 <= i <= |edits|
        ensures Consistent(Before(m, edits, i))
      {
        assert i > 0 ==> Before(m, edits, i) == Before(m1, rest, i - 1);
      }
    }
    if EditStorable(m, edits[0]) && AlwaysStorable(m1, rest) {
      forall i | 0 <= i < |edits|
        ensures EditStorable(Before(m, edits, i), edits[i])
      {
        assert i > 0 ==> Before(m, edits, i) == Before(m1, rest, i - 1) && edits[i] == rest[i - 1];
      }
    }
    AlwaysRest(m, edits, m1, rest);
  }

  lemma AlwaysRest(m: Insts, edits: seq<Edit>, m1: Insts, rest: seq<Edit>)
    requires edits != [] && rest == edits[1..] && Before(m, edits, 0) == m
    requires forall i :: 0 <= i < |edits| ==> Before(m, edits, i + 1) == Before(m1, rest, i)
    ensures AlwaysConsistent(m, edits) ==> Consistent(m) && AlwaysConsistent(m1, rest)
    ensures AlwaysStorable(m, edits) ==> EditStorable(m, edits[0]) && AlwaysStorable(m1, rest)
  {
    if AlwaysConsistent(m, edits) {
      forall i | 0 <= i <= |rest|
        ensures Consistent(Before(m1, rest, i))
      {
        assert Before(m, edits, i + 1) == Before(m1, rest, i);
      }
    }
    if AlwaysStorable(m, edits) {
      forall i | 0 <= i < |rest|
        ensures EditStorable(Before(m1, rest, i), rest[i])
      {
        assert Before(m, edits, i + 1) == Before(m1, rest, i) && rest[i] == edits[i + 1];
      }
    }
  }

  /** Over any run of edits, throwing ones included, every stored net has exactly instance size times
      terminal width bits all along if and only if each edit repeats only what can be stored. */
  lemma {:induction false} RunMeans(m: Insts, edits: seq<Edit>)
    requires Consistent(m) && FitsRun(m, edits)
    ensures AlwaysConsistent(m, edits) <==> AlwaysStorable(m, edits)
    decreases |edits|
  {
    if edits != [] {
      EditMeans(m, edits[0]);
      AlwaysNext(m, edits);
      var m1 := Apply(m, edits[0]);
      if Consistent(m1) {
        RunMeans(m1, edits[1..]);
      } else {
        assert Before(m1, edits[1..], 0) == m1;
      }
    } else {
      assert forall i :: 0 <= i <= |edits| ==> Before(m, edits, i) == m;
    }
  }

  /** The condition is needed: one connection over a very wide terminal breaks the invariant. */
  lemma BrokenRun(inst: string, term: string, net: string)
    requires inst == "b" && term == "a<0:4294967295>" && net == "b"
    ensures var m: Insts := map[inst := map[]];
      Consistent(m) && FitsEdit(m, Connect(inst, term, net)) && !Consistent(Apply(m, Connect(inst, term, net)))
  {
    TermReads(NameUnit("b", Range(0, 0, 0)), inst);
    HugeBroadcast(term, net);
    SingleBreaks(inst, term, net);
  }

  lemma SingleBreaks(inst: string, term: string, net: string)
    requires UnitOf(inst).Ok? && UnitOf(inst).value.Size() == 1 && FitsTerm(1, term) && FitsNet(net)
    requires Connected(1, term, net).Ok? && NameOf(Connected(1, term, net).value).Err?
    ensures var m: Insts := map[inst := map[]];
      Consistent(m) && FitsEdit(m, Connect(inst, term, net)) && !Consistent(Apply(m, Connect(inst, term, net)))
  {
    UnitIsRep(inst);
    UnreadableBreaks(map[inst := map[]], inst, term, net);
  }

  lemma UnreadableBreaks(m: Insts, inst: string, term: string, net: string)
    requires inst in m && UnitOf(inst).Ok?
    requires var r := Connected(UnitOf(inst).value.Size(), term, net); r.Ok? && NameOf(r.value).Err?
    ensures !Consistent(Apply(m, Connect(inst, term, net)))
  {
    var text := Connected(UnitOf(inst).value.Size(), term, net).value;
    var m' := ConnectTo(m, inst, term, net).0;
    assert inst in m' && term in m'[inst] && m'[inst][term] == text;
    assert !SizedNet(InstSize(inst), term, text) by {
      UnitIsRep(inst);
    }
  }

  // ---------------------------------------------------------------------------------------------
  // What the invariant is for

  /** Both netlist writers can write every instance that has a unit name. */
  lemma ConsistentNetlists(m: Insts, inst: string, terms: seq<string>)
    requires Consistent(m) && inst in m && UnitOf(inst).Ok?
    requires FitsTerms(m[inst], UnitOf(inst).value.Size())
    ensures Netlist.Netlistable(inst, m[inst], terms)
  {
    UnitIsRep(inst);
    if Netlist.ParseTerms(m[inst], terms).Ok? {
      var n, ts := UnitOf(inst).value.Size(), Netlist.ParseTerms(m[inst], terms).value;
      SizedNetlists(m[inst], n, terms);
      assert forall k :: 0 <= k < |ts| ==> Netlist.Width(ts[k], n);
    }
  }

  lemma {:induction false} SizedNetlists(conns: Connections, n: nat, terms: seq<string>)
    requires Sized(conns, n) && FitsTerms(conns, n) && Netlist.ParseTerms(conns, terms).Ok?
    ensures Netlist.Widths(Netlist.ParseTerms(conns, terms).value, n)
  {
    if terms != [] {
      SizedNetlists(conns, n, terms[1..]);
      SizedTerm(conns, n, terms[0]);
    }
  }

  lemma SizedTerm(conns: Connections, n: nat, term: string)
    requires Sized(conns, n) && FitsTerms(conns, n) && Netlist.ParseTerm(conns, term).Ok?
    ensures Netlist.Width(Netlist.ParseTerm(conns, term).value, n)
  {
    assert SizedNet(n, term, conns[term]);
  }

  // ---------------------------------------------------------------------------------------------
  // Edits as steps on the map

  lemma CopySteps(m: Insts, conns: Connections, oldSize: nat, newName: string, list: seq<(string, string)>)
    requires oldSize > 0 && RepOf(newName).Ok? && newName !in m
    ensures var n := InstSize(newName);
      var (c, ok) := AfterResize(conns, oldSize, n);
      var r := ConnectAll(c, n, list);
      Copy(m, conns, oldSize, newName, list)
        == if ok then (m[newName := conns][newName := c][newName := r.0], r.1) else (m[newName := conns][newName := c], false)
  {
    var n := InstSize(newName);
    var (c, ok) := AfterResize(conns, oldSize, n);
    var r := ConnectAll(c, n, list);
    PutTwice(m, newName, conns, c);
    PutTwice(m, newName, c, r.0);
  }

  lemma PutTwice(m: Insts, name: string, a: Connections, b: Connections)
    ensures m[name := a][name := b] == m[name := b]
  {
  }

  lemma RenameSteps(m: Insts, oldName: string, newName: string)
    requires newName !in m && RepOf(newName).Ok? && oldName in m
    ensures var m1 := (m - {oldName})[newName := m[oldName]];
      Rename(m, oldName, newName)
        == if RepOf(oldName).Err? then (m1, false)
           else
             var (c, ok) := AfterResize(m[oldName], InstSize(oldName), InstSize(newName));
             (m1[newName := c], ok)
  {
    if RepOf(oldName).Ok? {
      var c := AfterResize(m[oldName], InstSize(oldName), InstSize(newName)).0;
      PutTwice(m - {oldName}, newName, m[oldName], c);
    }
  }

  lemma FirstCopy(m: Insts, conns: Connections, oldSize: nat, copies: seq<NameConns>, k: nat)
    requires oldSize > 0 && FitsCopies(conns, copies) && k < |copies|
    ensures FitsCopy(conns, copies[k].0, copies[k].1)
    ensures var r := Copy(m, conns, oldSize, copies[k].0, copies[k].1);
      CopyAll(m, conns, oldSize, copies[k..])
        == if r.1 then CopyAll(r.0, conns, oldSize, copies[k + 1..]) else (r.0, false)
  {
    assert copies[k] in copies && copies[k..][1..] == copies[k + 1..];
  }

  /** Size of an instance name, as the code computes it. */
  method SizeOf(name: string) returns (n: cnt)
    requires RepOf(name).Ok? && InstSize(name) < TWO63
    ensures n == InstSize(name) >= 1
  {
    var nr := RepOf(name).value;
    RepeatLength(DataBits(nr.data), nr.mult);
    TimesMono(1, nr.mult, |DataBits(nr.data)|);
    WfDataFits(nr.data);
    n := RepSize(nr);
  }

  // ---------------------------------------------------------------------------------------------
  // The code on the instance map

  class Cellview {
    var instances: map<string, Instance>

    constructor ()
      ensures Valid() && Contents() == map[]
    {
      instances := map[];
    }

    /** Each entry owns its instance. */
    ghost predicate Valid()
      reads this
    {
      forall x, y :: x in instances && y in instances && instances[x] == instances[y] ==> x == y
    }

    ghost function Contents(): Insts
      reads this, instances.Values
    {
      map x | x in instances :: instances[x].connections
    }

    /** Connects a terminal of one instance; the others keep their nets. */
    method Connect(inst: string, n: cnt, term: string, net: string) returns (ok: bool)
      requires Valid() && inst in instances && FitsTerm(n, term) && FitsNet(net)
      modifies instances.Values
      ensures Valid() && ok == Connected(n, term, net).Ok?
      ensures ok ==> Contents() == old(Contents())[inst := old(Contents())[inst][term := Connected(n, term, net).value]]
      ensures !ok ==> Contents() == old(Contents())
    {
      ok := instances[inst].UpdateConnection(n, term, net);
    }

    /** Resizes the nets of one instance. */
    method Resize(inst: string, oldSize: cnt, newSize: cnt) returns (ok: bool)
      requires Valid() && inst in instances && oldSize > 0
      modifies instances.Values
      ensures Valid()
      ensures var r := AfterResize(old(Contents())[inst], oldSize, newSize);
        Contents() == old(Contents())[inst := r.0] && ok == r.1
    {
      if oldSize != newSize {
        ok := instances[inst].ResizeNets(oldSize, newSize);
      } else {
        ok := true;
      }
    }

    /** Connects a list of terminals of one instance until one throws. */
    method ConnectList(inst: string, n: cnt, list: seq<(string, string)>) returns (ok: bool)
      requires Valid() && inst in instances && FitsList(n, list)
      modifies instances.Values
      ensures Valid()
      ensures var r := ConnectAll(old(Contents())[inst], n, list);
        Contents() == old(Contents())[inst := r.0] && ok == r.1
    {
      ok := instances[inst].ConnectEach(n, list);
    }

    /** A new entry with its own instance. */
    method AddInstance(name: string, conns: Connections)
      requires Valid() && name !in instances
      modifies this
      ensures Valid() && name in instances && Contents() == old(Contents())[name := conns]
      ensures forall x :: x in instances ==> instances[x] in old(instances.Values) || fresh(instances[x])
    {
      var inst := new Instance(conns);
      instances := instances[name := inst];
      assert forall x :: x in old(instances) ==> instances[x] == old(instances[x]);
      assert instances.Keys == old(instances.Keys) + {name};
    }

    /** The renamed key takes its instance along. */
    method ReplaceKey(oldName: string, newName: string)
      requires Valid() && oldName in instances && newName !in instances
      modifies this
      ensures Valid() && newName in instances
      ensures forall x :: x in instances ==> instances[x] in old(instances.Values)
      ensures Contents() == (old(Contents()) - {oldName})[newName := old(Contents())[oldName]]
    {
      instances := SortedMaps.Renamed(instances, oldName, newName);
      assert forall x :: x in old(instances) && x != oldName ==> x in instances && instances[x] == old(instances)[x];
      assert instances[newName] == old(instances)[oldName];
    }

    method Drop(inst: string)
      requires Valid()
      modifies this
      ensures Valid() && Contents() == old(Contents()) - {inst}
    {
      instances := instances - {inst};
    }

    /** update_connection of a stored instance; its name must be a name unit. */
    method UpdateConnection(inst: string, term: string, net: string) returns (ok: bool)
      requires Valid() && FitsEdit(Contents(), Edit.Connect(inst, term, net))
      modifies instances.Values
      ensures Valid() && (Contents(), ok) == Outcome(old(Contents()), Edit.Connect(inst, term, net))
    {
      if inst !in instances || UnitOf(inst).Err? {
        return false;
      }
      ok := Connect(inst, UnitOf(inst).value.Size(), term, net);
    }

    /** rename_instance */
    method RenameInstance(oldName: string, newName: string) returns (ok: bool)
      requires Valid() && FitsEdit(Contents(), RenameInst(oldName, newName))
      modifies this, instances.Values
      ensures Valid() && (Contents(), ok) == Outcome(old(Contents()), RenameInst(oldName, newName))
    {
      if newName in instances || RepOf(newName).Err? || oldName !in instances {
        return false;
      }
      RenameSteps(Contents(), oldName, newName);
      ReplaceKey(oldName, newName);
      if RepOf(oldName).Err? {
        return false;
      }
      ok := ResizeRenamed(oldName, newName);
    }

    /** The nets follow the size of the new name. */
    method ResizeRenamed(oldName: string, newName: string) returns (ok: bool)
      requires Valid() && newName in instances
      requires RepOf(oldName).Ok? && RepOf(newName).Ok? && FitsInst(oldName) && FitsInst(newName)
      modifies instances.Values
      ensures Valid()
      ensures var r := AfterResize(old(Contents())[newName], InstSize(oldName), InstSize(newName));
        Contents() == old(Contents())[newName := r.0] && ok == r.1
    {
      var oldSize := SizeOf(oldName);
      var newSize := SizeOf(newName);
      ok := Resize(newName, oldSize, newSize);
    }

    method RemoveInstance(inst: string) returns (removed: bool)
      requires Valid()
      modifies this
      ensures Valid() && (Contents(), removed) == Outcome(old(Contents()), RemoveInst(inst))
    {
      removed := inst in instances;
      Drop(inst);
    }

    /** copy_instance; after a throw the new instance stays with what was done so far. */
    method CopyInstance(conns: Connections, oldSize: cnt, newName: string, list: seq<(string, string)>) returns (ok: bool)
      requires Valid() && oldSize > 0 && FitsCopy(conns, newName, list)
      modifies this, instances.Values
      ensures Valid() && (Contents(), ok) == Copy(old(Contents()), conns, oldSize, newName, list)
      ensures forall x :: x in instances ==> instances[x] in old(instances.Values) || fresh(instances[x])
    {
      if RepOf(newName).Err? || newName in instances {
        return false;
      }
      CopySteps(Contents(), conns, oldSize, newName, list);
      AddInstance(newName, conns);
      ok := FillCopy(oldSize, newName, list);
    }

    /** Resizes the nets of a fresh copy and connects it. */
    method FillCopy(oldSize: cnt, name: string, list: seq<(string, string)>) returns (ok: bool)
      requires Valid() && name in instances && oldSize > 0
      requires RepOf(name).Ok? && InstSize(name) < TWO63 && FitsList(InstSize(name), list)
      modifies instances.Values
      ensures Valid()
      ensures var m, n := old(Contents()), InstSize(name);
        var (c, resized) := AfterResize(m[name], oldSize, n);
        var r := ConnectAll(c, n, list);
        (Contents(), ok) == if resized then (m[name := c][name := r.0], r.1) else (m[name := c], false)
    {
      var newSize := SizeOf(name);
      ok := Resize(name, oldSize, newSize);
      if ok {
        ok := ConnectList(name, newSize, list);
      }
    }

    /** array_instance: copies of an instance replace it; a throw keeps the copies made so far. */
    method ArrayInstance(oldName: string, copies: seq<NameConns>) returns (ok: bool)
      requires Valid() && FitsEdit(Contents(), ArrayInst(oldName, copies))
      modifies this, instances.Values
      ensures Valid() && (Contents(), ok) == Outcome(old(Contents()), ArrayInst(oldName, copies))
    {
      if oldName !in instances || RepOf(oldName).Err? {
        return false;
      }
      var conns := instances[oldName].connections;
      assert Contents()[oldName] == conns;
      var oldSize := SizeOf(oldName);
      ok := CopyEach(conns, oldSize, copies);
      if ok {
        Drop(oldName);
      }
    }

    method CopyEach(conns: Connections, oldSize: cnt, copies: seq<NameConns>) returns (ok: bool)
      requires Valid() && oldSize > 0 && FitsCopies(conns, copies)
      modifies this, instances.Values
      ensures Valid() && (Contents(), ok) == CopyAll(old(Contents()), conns, oldSize, copies)
    {
      for k := 0 to |copies|
        invariant Valid()
        invariant forall x :: x in instances ==> instances[x] in old(instances.Values) || fresh(instances[x])
        invariant CopyAll(Contents(), conns, oldSize, copies[k..]) == CopyAll(old(Contents()), conns, oldSize, copies)
      {
        FirstCopy(Contents(), conns, oldSize, copies, k);
        var good := CopyInstance(conns, oldSize, copies[k].0, copies[k].1);
        if !good {
          return false;
        }
      }
      return true;
    }
  }
}
