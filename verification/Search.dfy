/** The galloping and bisecting search (util/binary_iterator.h) and its two users: fresh instance
    names (layout/cellview.cpp) and minimal wire widths (layout/routing_grid_util.cpp). */
module Search {
  import opened Counts
  import opened Decimal

  class BinaryIterator {
    var low: nat
    var high: Option<nat>
    var current: nat
    var marker: Option<nat>

    constructor (low: nat)
      ensures this.low == low && high == None && current == low && marker == None
    {
      this.low, high, current, marker := low, None, low, None;
    }

    predicate HasNext()
      reads this
    {
      high.None? || low < high.value
    }

    /** The current value is too small. */
    method Up()
      modifies this
      ensures low == old(current) + 1 && high == old(high) && marker == old(marker)
      ensures current == if high.Some? then (low + high.value) / 2 else if old(current) > 0 then 2 * old(current) else 1
    {
      low := current + 1;
      if high.Some? {
        current := (low + high.value) / 2;
      } else {
        if current > 0 {
          current := current * 2;
        } else {
          current := current + 1;
        }
      }
    }

    /** The current value will do: look below it. */
    method Down()
      modifies this
      ensures low == old(low) && high == Some(old(current)) && marker == old(marker)
      ensures current == (low + old(current)) / 2
    {
      high := Some(current);
      current := (low + high.value) / 2;
    }

    method Save()
      modifies this`marker
      ensures marker == Some(current)
    {
      marker := Some(current);
    }
  }

  ghost predicate Monotone(p: nat -> bool) {
    forall a: nat, b: nat :: a <= b && p(a) ==> p(b)
  }

  /** Number of binary digits. */
  function Bits(n: nat): nat {
    if n == 0 then 0 else 1 + Bits(n / 2)
  }

  lemma {:induction false} BitsMono(a: nat, b: nat)
    requires a <= b
    ensures Bits(a) <= Bits(b)
  {
    if a > 0 {
      BitsMono(a / 2, b / 2);
    }
  }

  /** No value from `start` below `low` satisfies `p`. */
  ghost predicate NoneBelow(p: nat -> bool, start: nat, low: nat) {
    forall k: nat :: start <= k < low ==> !p(k)
  }

  /** What holds between probes.  While galloping nothing has passed yet; afterwards the upper end
      is the saved value that passed, and `top` is where the gallop stopped. */
  ghost predicate Between(iter: BinaryIterator, p: nat -> bool, start: nat, probes: nat, top: nat)
    reads iter
  {
    && start <= iter.low
    && (Monotone(p) ==> NoneBelow(p, start, iter.low))
    && match iter.high
       case None =>
         && iter.low <= iter.current && probes <= Bits(iter.current)
         && (iter.current == start || iter.current <= 2 * iter.low - 1)
       case Some(high) =>
         && iter.low <= high && iter.current == (iter.low + high) / 2
         && iter.marker == Some(high) && p(high)
         && (top == start || top <= 2 * iter.low - 1)
         && probes + Bits(high - iter.low) <= Budget(top)
  }

  /** The probed value passes: save it and look below. */
  method Pass(iter: BinaryIterator, p: nat -> bool, ghost start: nat, ghost probes: nat, ghost top: nat) returns (ghost top': nat)
    requires Between(iter, p, start, probes, top) && iter.HasNext() && p(iter.current)
    modifies iter
    ensures Between(iter, p, start, probes + 1, top')
    ensures iter.high == Some(old(iter.current)) && iter.low == old(iter.low)
  {
    top' := PassBudget(iter, p, start, probes, top);
    iter.Save();
    iter.Down();
  }

  /** The probe is paid for by the gallop, or by halving what is left. */
  lemma PassBudget(iter: BinaryIterator, p: nat -> bool, start: nat, probes: nat, top: nat) returns (top': nat)
    requires Between(iter, p, start, probes, top) && iter.HasNext()
    ensures iter.low <= iter.current
    ensures probes + 1 + Bits(iter.current - iter.low) <= Budget(top')
    ensures top' == start || top' <= 2 * iter.low - 1
  {
    if iter.high.None? {
      top' := iter.current;
      StartBits(iter.low, top', start);
    } else {
      top' := top;
      HalfBits(iter.low, iter.high.value);
    }
  }

  lemma FailSkips(p: nat -> bool, start: nat, low: nat, current: nat)
    requires !p(current) && (Monotone(p) ==> NoneBelow(p, start, low))
    ensures Monotone(p) ==> NoneBelow(p, start, current + 1)
  {
  }

  /** The probed value fails: look above. */
  method Fail(iter: BinaryIterator, p: nat -> bool, ghost start: nat, ghost probes: nat, ghost top: nat)
    requires Between(iter, p, start, probes, top) && iter.HasNext() && !p(iter.current)
    modifies iter
    ensures Between(iter, p, start, probes + 1, top)
    ensures iter.high == old(iter.high) && iter.low == old(iter.current) + 1
    ensures iter.high.None? ==> iter.current > old(iter.current)
  {
    if iter.high.Some? {
      BisectUp(iter, p, start, probes, top);
    } else {
      GallopUp(iter, p, start, probes, top);
    }
  }

  method BisectUp(iter: BinaryIterator, p: nat -> bool, ghost start: nat, ghost probes: nat, ghost top: nat)
    requires Between(iter, p, start, probes, top) && iter.HasNext() && !p(iter.current) && iter.high.Some?
    modifies iter
    ensures Between(iter, p, start, probes + 1, top)
    ensures iter.high == old(iter.high) && iter.low == old(iter.current) + 1
  {
    FailSkips(p, start, iter.low, iter.current);
    HalfBits(iter.low, iter.high.value);
    iter.Up();
  }

  method GallopUp(iter: BinaryIterator, p: nat -> bool, ghost start: nat, ghost probes: nat, ghost top: nat)
    requires Between(iter, p, start, probes, top) && !p(iter.current) && iter.high.None?
    modifies iter
    ensures Between(iter, p, start, probes + 1, top) && iter.high.None?
    ensures iter.low == old(iter.current) + 1 && iter.current > old(iter.current)
  {
    FailSkips(p, start, iter.low, iter.current);
    DoubleBits(iter.current);
    iter.Up();
  }

  /** The search loop shared by the two users.  `bound` only has to exist.  For any predicate that
      holds from some point on, the loop ends on a value that satisfies it; for a monotone one, on
      the least value from `start` on, after at most two probes per binary digit and two more. */
  method FindFirst(p: nat -> bool, start: nat, ghost bound: nat) returns (found: nat, ghost probes: nat)
    requires forall k: nat :: k >= bound ==> p(k)
    ensures start <= found && p(found)
    ensures Monotone(p) ==> NoneBelow(p, start, found)
    ensures Monotone(p) ==> probes <= 2 * Bits(found) + 2
  {
    var iter := new BinaryIterator(start);
    probes := 0;
    ghost var top: nat := 0;
    while iter.HasNext()
      invariant fresh(iter) && Between(iter, p, start, probes, top)
      decreases if iter.high.None? then 1 else 0,
                if iter.high.Some? then iter.high.value - iter.low else if iter.current < bound then bound - iter.current else 0
    {
      if p(iter.current) {
        top := Pass(iter, p, start, probes, top);
      } else {
        Fail(iter, p, start, probes, top);
      }
      probes := probes + 1;
    }
    found := iter.marker.value;
    if Monotone(p) {
      EndBits(top, found, start);
    }
  }

  /** Probes that a gallop ending at `top` and the bisection after it can take. */
  function Budget(top: nat): nat {
    1 + Bits(top) + Bits(top / 2)
  }

  lemma DoubleBits(x: nat)
    ensures x > 0 ==> Bits(2 * x) == 1 + Bits(x)
    ensures Bits(1) == 1 && Bits(0) == 0
  {
    assert 2 * x / 2 == x;
  }

  lemma HalfBits(low: nat, high: nat)
    requires low < high
    ensures var mid := (low + high) / 2;
      1 + Bits(mid - low) <= Bits(high - low) && 1 + Bits(high - (mid + 1)) <= Bits(high - low)
  {
    var mid := (low + high) / 2;
    BitsMono(mid - low, (high - low) / 2);
    BitsMono(high - (mid + 1), (high - low) / 2);
  }

  lemma StartBits(low: nat, top: nat, start: nat)
    requires start <= low <= top && (top == start || top <= 2 * low - 1)
    ensures 1 + Bits(top) + Bits(top - low) <= Budget(top)
  {
    BitsMono(top - low, top / 2);
  }

  /** The first value the gallop stopped at is below twice the result. */
  lemma EndBits(top: nat, found: nat, start: nat)
    requires start <= found && (top == start || top <= 2 * found - 1)
    ensures Budget(top) <= 2 * Bits(found) + 2
  {
    BitsMono(top / 2, found);
  }

  // ---------------------------------------------------------------------------------------------
  // Fresh instance names

  function AutoName(k: nat): string {
    "X" + Numeral(k)
  }

  lemma AutoNameInjective(a: nat, b: nat)
    requires AutoName(a) == AutoName(b)
    ensures a == b
  {
    assert AutoName(a)[1..] == Numeral(a) && AutoName(b)[1..] == Numeral(b);
    NumeralInjective(a, b);
  }

  /** A finite map leaves all automatic names free from some index on. */
  lemma {:induction false} FreeFrom(names: set<string>) returns (bound: nat)
    ensures forall k: nat :: k >= bound ==> AutoName(k) !in names
  {
    if names == {} {
      bound := 0;
    } else {
      var x :| x in names;
      bound := FreeFrom(names - {x});
      if k: nat :| AutoName(k) == x {
        forall j: nat | j != k
          ensures AutoName(j) != x
        {
          if AutoName(j) == x {
            AutoNameInjective(j, k);
          }
        }
        bound := if bound > k then bound else k + 1;
      }
    }
  }

  class Cellview<Instance> {
    var instMap: map<string, Instance>
    var instNameCnt: nat

    /** Adds an instance under the given name, or under a fresh automatic one when the name is empty
        or taken.  Exactly one instance is added and none is overwritten. */
    method AddInst(name: string, inst: Instance)
      modifies this
      ensures name != "" && name !in old(instMap) ==> instMap == old(instMap)[name := inst] && instNameCnt == old(instNameCnt)
      ensures name == "" || name in old(instMap) ==>
                old(instNameCnt) <= instNameCnt && AutoName(instNameCnt) !in old(instMap) &&
                instMap == old(instMap)[AutoName(instNameCnt) := inst]
      ensures |instMap| == |old(instMap)| + 1
      ensures forall n :: n in old(instMap) ==> n in instMap && instMap[n] == old(instMap)[n]
    {
      if name != "" && name !in instMap {
        OneMore(instMap, name, inst);
        instMap := instMap[name := inst];
        return;
      }
      ghost var bound := FreeFrom(instMap.Keys);
      var taken := instMap;
      ghost var probes;
      instNameCnt, probes := FindFirst((k: nat) => AutoName(k) !in taken, instNameCnt, bound);
      OneMore(instMap, AutoName(instNameCnt), inst);
      instMap := instMap[AutoName(instNameCnt) := inst];
    }
  }

  lemma OneMore<V>(m: map<string, V>, name: string, v: V)
    requires name !in m
    ensures |m[name := v]| == |m| + 1
  {
    assert m[name := v].Keys == m.Keys + {name};
    assert |m[name := v].Keys| == |m.Keys| + 1;
  }

  // ---------------------------------------------------------------------------------------------
  // Minimal wire width

  /** One electromigration check on a wire of `n` tracks; via checks apply only when the adjacent
      layer runs the other way. */
  datatype Check = Check(applies: bool, passes: nat -> bool) {
    predicate Ok(n: nat) {
      !applies || passes(n)
    }
  }

  /** get_min_num_tr: a number of tracks, from 1 up, that passes the wire check and both via checks; the
      least one when no wider wire fails the three checks together where a narrower one passes them. */
  method GetMinNumTr(wire: Check, bot: Check, top: Check, ghost bound: nat) returns (n: nat)
    requires forall k: nat :: k >= bound ==> PassesAll(wire, bot, top, k)
    ensures n >= 1 && PassesAll(wire, bot, top, n)
    ensures (forall a: nat, b: nat :: a <= b && PassesAll(wire, bot, top, a) ==> PassesAll(wire, bot, top, b)) ==>
              forall k :: 1 <= k < n ==> !PassesAll(wire, bot, top, k)
  {
    var passes := (k: nat) => PassesAll(wire, bot, top, k);
    ghost var probes;
    n, probes := FindFirst(passes, 1, bound);
    if forall a: nat, b: nat :: a <= b && PassesAll(wire, bot, top, a) ==> PassesAll(wire, bot, top, b) {
      assert Monotone(passes);
      forall k: nat | 1 <= k < n
        ensures !PassesAll(wire, bot, top, k)
      {
        assert !passes(k);
      }
    }
  }

  predicate PassesAll(wire: Check, bot: Check, top: Check, n: nat) {
    wire.Ok(n) && bot.Ok(n) && top.Ok(n)
  }
}
