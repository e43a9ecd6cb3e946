/** Block pitches of routing levels (layout/routing_grid.cpp). */
module BlockPitch {
  import opened Arithmetic

  // ---------------------------------------------------------------------------------------------
  // Divisibility and least common multiples

  predicate Divides(d: nat, n: nat) {
    if d == 0 then n == 0 else Remainder(n, d) == 0
  }

  lemma {:induction false} DividesSum(d: nat, x: nat, y: nat)
    requires Divides(d, y)
    ensures Divides(d, x + y) <==> Divides(d, x)
    decreases y
  {
    if d > 0 && y > 0 {
      DividesSum(d, x, y - d);
    }
  }

  lemma {:induction false} DividesTimes(d: nat, q: nat)
    ensures Divides(d, Times(q, d))
  {
    if q > 0 {
      DividesTimes(d, q - 1);
      DividesSelf(d);
      DividesSum(d, Times(q - 1, d), d);
    }
  }

  lemma DividesSelf(d: nat)
    ensures Divides(d, d) && Divides(1, d)
  {
    DividesOne(d);
  }

  lemma {:induction false} DividesOne(n: nat)
    ensures Divides(1, n)
  {
    if n > 0 {
      DividesOne(n - 1);
    }
  }

  lemma {:induction false} DividesRemainder(d: nat, n: nat, m: nat)
    requires m > 0 && Divides(d, n) && Divides(d, m)
    ensures Divides(d, Remainder(n, m))
  {
    if n >= m {
      DividesSum(d, n - m, m);
      DividesRemainder(d, n - m, m);
    }
  }

  lemma {:induction false} DividesTrans(a: nat, b: nat, c: nat)
    requires Divides(a, b) && Divides(b, c)
    ensures Divides(a, c)
    decreases c
  {
    if b > 0 && c > 0 {
      DividesTrans(a, b, c - b);
      DividesSum(a, c - b, b);
    }
  }

  lemma {:induction false} DividesDouble(d: nat, n: nat)
    ensures Divides(2 * d, 2 * n) <==> Divides(d, n)
    decreases n
  {
    if 0 < d <= n {
      DividesDouble(d, n - d);
      assert 2 * n - 2 * d == 2 * (n - d);
    }
  }

  /** std::lcm: the least positive common multiple, or zero when either argument is zero. */
  function Lcm(a: nat, b: nat): nat {
    if a == 0 || b == 0 then 0
    else
      CommonProduct(a, b);
      LeastFrom(a, b, 1)
  }

  /** The least common multiple from `c` up to the product. */
  function LeastFrom(a: nat, b: nat, c: nat): (m: nat)
    requires 0 < c <= Times(a, b) && Divides(a, Times(a, b)) && Divides(b, Times(a, b))
    ensures c <= m && Divides(a, m) && Divides(b, m)
    ensures forall k :: c <= k < m ==> !(Divides(a, k) && Divides(b, k))
    decreases Times(a, b) - c
  {
    if Divides(a, c) && Divides(b, c) then c else LeastFrom(a, b, c + 1)
  }

  lemma CommonProduct(a: nat, b: nat)
    requires a > 0 && b > 0
    ensures Times(a, b) > 0 && Divides(a, Times(a, b)) && Divides(b, Times(a, b))
  {
    DividesTimes(b, a);
    DividesTimes(a, b);
    TimesIsProduct(a, b);
    TimesIsProduct(b, a);
  }

  /** The universal property: the least common multiple divides every common multiple. */
  lemma LcmUniversal(a: nat, b: nat, m: nat)
    ensures Divides(a, Lcm(a, b)) && Divides(b, Lcm(a, b))
    ensures Divides(Lcm(a, b), m) <==> Divides(a, m) && Divides(b, m)
    ensures a > 0 && b > 0 ==> Lcm(a, b) > 0
  {
    var l := Lcm(a, b);
    if a > 0 && b > 0 {
      CommonProduct(a, b);
      if Divides(a, m) && Divides(b, m) {
        DividesRemainder(a, m, l);
        DividesRemainder(b, m, l);
      }
      if Divides(l, m) {
        DividesTrans(a, l, m);
        DividesTrans(b, l, m);
      }
    } else {
      ZeroDivides(a, m);
      ZeroDivides(b, m);
      assert Divides(a, 0) && Divides(b, 0);
    }
  }

  lemma ZeroDivides(d: nat, m: nat)
    ensures Divides(d, 0) && (Divides(0, m) <==> m == 0)
  {
  }

  /** Numbers that divide each other are equal. */
  lemma DividesAntisymmetric(a: nat, b: nat)
    requires Divides(a, b) && Divides(b, a)
    ensures a == b
  {
    DividesBound(a, b);
    DividesBound(b, a);
  }

  lemma DividesBound(a: nat, b: nat)
    requires Divides(a, b)
    ensures b == 0 || a <= b
  {
  }

  lemma LcmDouble(a: nat, b: nat)
    ensures Lcm(2 * a, 2 * b) == 2 * Lcm(a, b)
  {
    var l, l2 := Lcm(a, b), Lcm(2 * a, 2 * b);
    LcmUniversal(a, b, l);
    DividesDouble(a, l);
    DividesDouble(b, l);
    LcmUniversal(2 * a, 2 * b, 2 * l);
    LcmUniversal(2 * a, 2 * b, l2);
    EvenMultiple(2 * a, l2);
    var h := l2 / 2;
    DividesDouble(a, h);
    DividesDouble(b, h);
    LcmUniversal(a, b, h);
    DividesDouble(l, h);
    DividesAntisymmetric(2 * l, l2);
  }

  lemma {:induction false} EvenMultiple(d: nat, n: nat)
    requires d % 2 == 0 && Divides(d, n)
    ensures n % 2 == 0
    decreases n
  {
    if 0 < d <= n {
      EvenMultiple(d, n - d);
    }
  }

  lemma LcmOne(a: nat)
    ensures Lcm(a, 1) == a
  {
    DividesSelf(a);
    LcmUniversal(a, 1, a);
    DividesAntisymmetric(a, Lcm(a, 1));
  }

  predicate CommonMultiple(ps: seq<nat>, m: nat) {
    forall i :: 0 <= i < |ps| ==> Divides(ps[i], m)
  }

  /** `l` is the least common multiple of a list: positive, a common multiple, and a divisor of
      every common multiple. */
  ghost predicate IsLcmOf(ps: seq<nat>, l: nat) {
    && l > 0
    && (forall m: nat :: Divides(l, m) <==> CommonMultiple(ps, m))
  }

  // ---------------------------------------------------------------------------------------------
  // Routing levels

  datatype TrackInfo = TrackInfo(dir: nat, pitch: nat, blkPitch: int, halfBlkPitch: int)

  predicate WfInfos(infos: seq<TrackInfo>) {
    forall i :: 0 <= i < |infos| ==> infos[i].dir < 2 && infos[i].pitch > 0
  }

  /** Pitches of the levels start..stop that run in direction `dir`. */
  function Pitches(infos: seq<TrackInfo>, start: nat, stop: nat, dir: nat): seq<nat>
    requires start <= stop <= |infos|
    decreases stop
  {
    if start == stop then []
    else
      var before := Pitches(infos, start, stop - 1, dir);
      if infos[stop - 1].dir == dir then before + [infos[stop - 1].pitch] else before
  }

  predicate AllEven(ps: seq<nat>) {
    forall i :: 0 <= i < |ps| ==> ps[i] % 2 == 0
  }

  /** What one level should hold: the least common multiple of the pitches of its direction from the
      bottom of its group up to itself; with even pitches exactly twice the half block pitch. */
  ghost predicate RightPitch(infos: seq<TrackInfo>, start: nat, idx: nat)
    requires start <= idx < |infos|
  {
    var ps := Pitches(infos, start, idx + 1, infos[idx].dir);
    && infos[idx].blkPitch > 0 && infos[idx].halfBlkPitch >= 0
    && IsLcmOf(ps, infos[idx].blkPitch)
    && (AllEven(ps) ==> infos[idx].blkPitch == 2 * infos[idx].halfBlkPitch)
  }

  /** The running list of one direction: [1, 1], then the block pitches of its levels so far. */
  ghost predicate RightList(list: seq<(nat, nat)>, ps: seq<nat>) {
    && |list| == |ps| + 1 && list[0] == (1, 1)
    && (forall j :: 0 < j < |list| ==> IsLcmOf(ps[..j], list[j].0))
    && (AllEven(ps) ==> forall j :: 0 < j < |list| ==> list[j].0 == 2 * list[j].1)
  }

  /** The inner loop: folds the running list into the pitch of the new level. */
  method FoldList(pitch: nat, list: seq<(nat, nat)>, ghost ps: seq<nat>) returns (blk: nat, half: nat)
    requires pitch > 0 && RightList(list, ps)
    ensures IsLcmOf(ps + [pitch], blk)
    ensures AllEven(ps + [pitch]) ==> blk == 2 * half
  {
    assert (ps + [pitch])[|ps|] == pitch;
    blk := pitch;
    half := blk / 2;
    for k := 0 to |list|
      invariant blk > 0
      invariant k == 0 ==> blk == pitch
      invariant forall m: nat :: Divides(blk, m) <==> Divides(pitch, m) && (k == 0 || CommonMultiple(ps[..k - 1], m))
      invariant AllEven(ps + [pitch]) ==> blk == 2 * half
    {
      FoldStep(pitch, list, ps, k, blk, half);
      blk := Lcm(blk, list[k].0);
      half := Lcm(half, list[k].1);
    }
    assert ps[..|ps|] == ps;
    SnocMultiple(ps, pitch);
  }

  lemma SnocMultiple(ps: seq<nat>, pitch: nat)
    ensures forall m: nat :: CommonMultiple(ps + [pitch], m) <==> CommonMultiple(ps, m) && Divides(pitch, m)
  {
    forall m: nat
      ensures CommonMultiple(ps + [pitch], m) <==> CommonMultiple(ps, m) && Divides(pitch, m)
    {
      assert (ps + [pitch])[|ps|] == pitch;
      assert forall i :: 0 <= i < |ps| ==> (ps + [pitch])[i] == ps[i];
    }
  }

  lemma FoldStep(pitch: nat, list: seq<(nat, nat)>, ps: seq<nat>, k: nat, blk: nat, half: nat)
    requires RightList(list, ps) && k < |list| && blk > 0
    requires forall m: nat :: Divides(blk, m) <==> Divides(pitch, m) && (k == 0 || CommonMultiple(ps[..k - 1], m))
    requires AllEven(ps + [pitch]) ==> blk == 2 * half
    ensures Lcm(blk, list[k].0) > 0
    ensures forall m: nat :: Divides(Lcm(blk, list[k].0), m) <==> Divides(pitch, m) && CommonMultiple(ps[..k], m)
    ensures AllEven(ps + [pitch]) ==> Lcm(blk, list[k].0) == 2 * Lcm(half, list[k].1)
  {
    LcmUniversal(blk, list[k].0, 0);
    forall m: nat
      ensures Divides(Lcm(blk, list[k].0), m) <==> Divides(pitch, m) && CommonMultiple(ps[..k], m)
    {
      LcmUniversal(blk, list[k].0, m);
      DividesSelf(m);
      if k > 0 {
        assert IsLcmOf(ps[..k], list[k].0);
        assert CommonMultiple(ps[..k], m) ==> CommonMultiple(ps[..k - 1], m) by {
          assert forall i :: 0 <= i < k - 1 ==> ps[..k - 1][i] == ps[..k][i];
        }
      }
    }
    if AllEven(ps + [pitch]) {
      assert forall i :: 0 <= i < |ps| ==> ps[i] == (ps + [pitch])[i];
      if k == 0 {
        LcmOne(blk);
        LcmOne(half);
      } else {
        LcmDouble(half, list[k].1);
      }
    }
  }

  /** update_blk_pitch_helper on one group of levels. */
  method UpdateGroup(infos: array<TrackInfo>, start: nat, stop: nat)
    requires start <= stop <= infos.Length && WfInfos(infos[..])
    modifies infos
    ensures SameLevels(old(infos[..]), infos[..])
    ensures forall i :: 0 <= i < infos.Length && !(start <= i < stop) ==> infos[i] == old(infos[i])
    ensures forall i :: start <= i < stop ==> RightPitch(infos[..], start, i)
  {
    var list0: seq<(nat, nat)>, list1: seq<(nat, nat)> := [(1, 1)], [(1, 1)];
    ghost var was := infos[..];
    for idx := start to stop
      invariant SameLevels(was, infos[..])
      invariant forall i :: 0 <= i < infos.Length && !(start <= i < idx) ==> infos[i] == was[i]
      invariant forall i :: start <= i < idx ==> RightPitch(infos[..], start, i)
      invariant RightList(list0, Pitches(was, start, idx, 0)) && RightList(list1, Pitches(was, start, idx, 1))
    {
      ghost var ps := Pitches(was, start, idx, infos[idx].dir);
      var blk, half := UpdateLevel(infos, start, idx, if infos[idx].dir == 0 then list0 else list1, was);
      if infos[idx].dir == 0 {
        ListSnoc(list0, ps, infos[idx].pitch, blk, half);
        list0 := list0 + [(blk, half)];
      } else {
        ListSnoc(list1, ps, infos[idx].pitch, blk, half);
        list1 := list1 + [(blk, half)];
      }
    }
  }

  /** One level: its block pitches from the list of its direction. */
  method UpdateLevel(infos: array<TrackInfo>, start: nat, idx: nat, list: seq<(nat, nat)>, ghost was: seq<TrackInfo>)
    returns (blk: nat, half: nat)
    requires start <= idx < infos.Length && WfInfos(infos[..]) && SameLevels(was, infos[..])
    requires RightList(list, Pitches(was, start, idx, infos[idx].dir))
    requires forall i :: start <= i < idx ==> RightPitch(infos[..], start, i)
    modifies infos
    ensures infos[..] == old(infos[..])[idx := infos[idx]] && SameLevels(old(infos[..]), infos[..])
    ensures forall i :: start <= i <= idx ==> RightPitch(infos[..], start, i)
    ensures var ps := Pitches(was, start, idx, infos[idx].dir) + [infos[idx].pitch];
      IsLcmOf(ps, blk) && (AllEven(ps) ==> blk == 2 * half)
  {
    var info := infos[idx];
    blk, half := FoldList(info.pitch, list, Pitches(was, start, idx, info.dir));
    infos[idx] := info.(blkPitch := blk, halfBlkPitch := half);
    KeepPitches(was, old(infos[..]), infos[..], start, idx);
  }

  /** Only block pitches differ. */
  predicate SameLevels(a: seq<TrackInfo>, b: seq<TrackInfo>) {
    |a| == |b| && forall i :: 0 <= i < |a| ==> a[i].dir == b[i].dir && a[i].pitch == b[i].pitch
  }

  lemma {:induction false} SamePitches(a: seq<TrackInfo>, b: seq<TrackInfo>, start: nat, stop: nat, dir: nat)
    requires SameLevels(a, b) && start <= stop <= |a|
    ensures Pitches(a, start, stop, dir) == Pitches(b, start, stop, dir)
    decreases stop
  {
    if start < stop {
      SamePitches(a, b, start, stop - 1, dir);
    }
  }

  /** Writing one level leaves the levels below it right and makes the new one right. */
  lemma KeepPitches(was: seq<TrackInfo>, before: seq<TrackInfo>, after: seq<TrackInfo>, start: nat, idx: nat)
    requires SameLevels(was, before) && start <= idx < |was|
    requires SameLevels(before, after) && after == before[idx := after[idx]]
    requires forall i :: start <= i < idx ==> RightPitch(before, start, i)
    requires var ps := Pitches(was, start, idx, was[idx].dir);
      after[idx].blkPitch > 0 && after[idx].halfBlkPitch >= 0 &&
      IsLcmOf(ps + [was[idx].pitch], after[idx].blkPitch) &&
      (AllEven(ps + [was[idx].pitch]) ==> after[idx].blkPitch == 2 * after[idx].halfBlkPitch)
    ensures forall i :: start <= i <= idx ==> RightPitch(after, start, i)
  {
    forall i | start <= i <= idx
      ensures RightPitch(after, start, i)
    {
      assert i < idx ==> RightPitch(before, start, i);
      SamePitches(before, after, start, i + 1, after[i].dir);
      SamePitches(was, after, start, i + 1, after[i].dir);
    }
  }

  lemma ListSnoc(list: seq<(nat, nat)>, ps: seq<nat>, pitch: nat, blk: nat, half: nat)
    requires RightList(list, ps) && IsLcmOf(ps + [pitch], blk)
    requires AllEven(ps + [pitch]) ==> blk == 2 * half
    ensures RightList(list + [(blk, half)], ps + [pitch])
  {
    var list', ps' := list + [(blk, half)], ps + [pitch];
    forall j | 0 < j < |list'|
      ensures IsLcmOf(ps'[..j], list'[j].0)
    {
      if j < |list| {
        assert ps'[..j] == ps[..j];
      } else {
        assert ps'[..j] == ps';
      }
    }
    if AllEven(ps') {
      assert forall i :: 0 <= i < |ps| ==> ps[i] == ps'[i];
    }
  }

  /** update_block_pitch: ignored levels, then the private group, then the public group. */
  method UpdateBlockPitch(infos: array<TrackInfo>, botLevel: int, topPrivate: int, topIgnore: int)
    requires WfInfos(infos[..])
    requires botLevel - 1 <= topIgnore < botLevel + infos.Length
    requires botLevel - 1 <= topPrivate < botLevel + infos.Length
    modifies infos
    ensures SameLevels(old(infos[..]), infos[..])
    ensures var first := topIgnore + 1 - botLevel; var public := if topPrivate > topIgnore then topPrivate + 1 - botLevel else first;
      && (forall i :: 0 <= i < first ==> infos[i].blkPitch == -1 && infos[i].halfBlkPitch == -1)
      && (forall i :: first <= i < public ==> RightPitch(infos[..], first, i))
      && (forall i :: public <= i < infos.Length ==> RightPitch(infos[..], public, i))
  {
    var ignored := topIgnore + 1 - botLevel;
    for idx := 0 to ignored
      invariant SameLevels(old(infos[..]), infos[..])
      invariant forall i :: 0 <= i < idx ==> infos[i].blkPitch == -1 && infos[i].halfBlkPitch == -1
    {
      infos[idx] := infos[idx].(blkPitch := -1, halfBlkPitch := -1);
    }
    var start, stop := ignored, topPrivate + 1 - botLevel;
    if stop > start {
      UpdateGroup(infos, start, stop);
    }
    ghost var middle := infos[..];
    start := if start > stop then start else stop;
    stop := infos.Length;
    if stop > start {
      UpdateGroup(infos, start, stop);
    }
    KeepLower(middle, infos[..], ignored, start);
  }

  /** Writing the upper group leaves the lower one right. */
  lemma KeepLower(before: seq<TrackInfo>, after: seq<TrackInfo>, start: nat, stop: nat)
    requires SameLevels(before, after) && start <= stop <= |before|
    requires forall i :: 0 <= i < stop ==> before[i] == after[i]
    requires forall i :: start <= i < stop ==> RightPitch(before, start, i)
    ensures forall i :: start <= i < stop ==> RightPitch(after, start, i)
  {
    forall i | start <= i < stop
      ensures RightPitch(after, start, i)
    {
      assert RightPitch(before, start, i);
      SamePitches(before, after, start, i + 1, after[i].dir);
    }
  }
}
