/** A map kept as a vector of pairs sorted by key (util/sorted_map.h over util/sorted_vector.h).

    The key order is a parameter, as in the template: any strict total order.
 */
module SortedMaps {
  /** What the template asks of its Compare argument. */
  ghost predicate StrictTotalOrder<K(!new)>(lt: (K, K) -> bool) {
    && (forall a :: !lt(a, a))
    && (forall a, b, c :: lt(a, b) && lt(b, c) ==> lt(a, c))
    && (forall a, b :: a == b || lt(a, b) || lt(b, a))
  }

  predicate SortedBy<K, V>(lt: (K, K) -> bool, data: seq<(K, V)>) {
    forall i, j :: 0 <= i < j < |data| ==> lt(data[i].0, data[j].0)
  }

  /** The mathematical map. */
  function AsMap<K, V>(data: seq<(K, V)>): map<K, V> {
    if data == [] then map[] else AsMap(data[..|data| - 1])[data[|data| - 1].0 := data[|data| - 1].1]
  }

  /** The pairs of the vector are exactly those of the map. */
  ghost predicate Holds<K(!new), V>(data: seq<(K, V)>, m: map<K, V>) {
    && (forall i :: 0 <= i < |data| ==> data[i].0 in m && m[data[i].0] == data[i].1)
    && (forall k :: k in m ==> exists i :: 0 <= i < |data| && data[i].0 == k)
  }

  lemma {:induction false} AsMapOf<K(!new), V>(lt: (K, K) -> bool, data: seq<(K, V)>)
    requires StrictTotalOrder(lt) && SortedBy(lt, data)
    ensures Holds(data, AsMap(data))
  {
    if data != [] {
      var init := data[..|data| - 1];
      AsMapOf(lt, init);
      forall i | 0 <= i < |data|
        ensures data[i].0 in AsMap(data) && AsMap(data)[data[i].0] == data[i].1
      {
        if i < |init| {
          assert init[i] == data[i] && lt(data[i].0, data[|data| - 1].0);
        }
      }
      forall k | k in AsMap(data)
        ensures exists i :: 0 <= i < |data| && data[i].0 == k
      {
        if k != data[|data| - 1].0 {
          var i :| 0 <= i < |init| && init[i].0 == k;
          assert data[i].0 == k;
        } else {
          assert data[|data| - 1].0 == k;
        }
      }
    }
  }

  /** Two sorted vectors with the same pairs stand for the same map. */
  lemma MapIs<K(!new), V>(lt: (K, K) -> bool, data: seq<(K, V)>, m: map<K, V>)
    requires StrictTotalOrder(lt) && SortedBy(lt, data)
    requires Holds(data, m)
    ensures AsMap(data) == m
  {
    AsMapOf(lt, data);
    forall k
      ensures k in m <==> k in AsMap(data)
      ensures k in m ==> AsMap(data)[k] == m[k]
    {
      if k in m {
        var i :| 0 <= i < |data| && data[i].0 == k;
      }
      if k in AsMap(data) {
        var i :| 0 <= i < |data| && data[i].0 == k;
      }
    }
  }

  /** Renaming a key of a mathematical map. */
  function Renamed<K, V>(m: map<K, V>, oldKey: K, newKey: K): map<K, V>
    requires oldKey in m
  {
    (m - {oldKey})[newKey := m[oldKey]]
  }

  class SortedMap<K(==,!new), V> {
    const lt: (K, K) -> bool
    var data: seq<(K, V)>

    constructor (lt: (K, K) -> bool)
      requires StrictTotalOrder(lt)
      ensures Valid() && data == [] && this.lt == lt
    {
      this.lt := lt;
      data := [];
    }

    ghost predicate Valid()
      reads this
    {
      StrictTotalOrder(lt) && SortedBy(lt, data)
    }

    /** First position in lo..hi whose key is not below `key`. */
    method LowerBound(lo: nat, hi: nat, key: K) returns (pos: nat)
      requires Valid() && lo <= hi <= |data|
      ensures lo <= pos <= hi
      ensures forall i :: lo <= i < pos ==> lt(data[i].0, key)
      ensures forall i :: pos <= i < hi ==> !lt(data[i].0, key)
    {
      pos := lo;
      var len := hi - lo;
      while len > 0
        invariant 0 <= len && lo <= pos && pos + len <= hi
        invariant forall i :: lo <= i < pos ==> lt(data[i].0, key)
        invariant forall i :: pos + len <= i < hi ==> !lt(data[i].0, key)
      {
        var half := len / 2;
        var mid := pos + half;
        if lt(data[mid].0, key) {
          assert forall i :: lo <= i < mid ==> lt(data[i].0, data[mid].0);
          pos, len := mid + 1, len - half - 1;
        } else {
          assert forall i :: mid < i < hi ==> lt(data[mid].0, data[i].0);
          len := half;
        }
      }
    }

    /** First position in lo..hi whose key is above `key`. */
    method UpperBound(lo: nat, hi: nat, key: K) returns (pos: nat)
      requires Valid() && lo <= hi <= |data|
      ensures lo <= pos <= hi
      ensures forall i :: lo <= i < pos ==> !lt(key, data[i].0)
      ensures forall i :: pos <= i < hi ==> lt(key, data[i].0)
    {
      pos := lo;
      var len := hi - lo;
      while len > 0
        invariant 0 <= len && lo <= pos && pos + len <= hi
        invariant forall i :: lo <= i < pos ==> !lt(key, data[i].0)
        invariant forall i :: pos + len <= i < hi ==> lt(key, data[i].0)
      {
        var half := len / 2;
        var mid := pos + half;
        if !lt(key, data[mid].0) {
          assert forall i :: lo <= i < mid ==> lt(data[i].0, data[mid].0);
          pos, len := mid + 1, len - half - 1;
        } else {
          assert forall i :: mid < i < hi ==> lt(data[mid].0, data[i].0);
          len := half;
        }
      }
    }

    method Find(key: K) returns (pos: nat)
      requires Valid()
      ensures pos < |data| ==> data[pos].0 == key
      ensures pos < |data| <==> key in AsMap(data)
      ensures pos <= |data|
    {
      AsMapOf(lt, data);
      pos := LowerBound(0, |data|, key);
      if pos < |data| && lt(key, data[pos].0) {
        NotInMap(pos, key);
        pos := |data|;
      } else if pos == |data| {
        NotInMap(pos, key);
      }
    }

    lemma NotInMap(pos: nat, key: K)
      requires Valid() && pos <= |data|
      requires forall i :: 0 <= i < pos ==> lt(data[i].0, key)
      requires pos < |data| ==> lt(key, data[pos].0)
      ensures key !in AsMap(data)
      ensures forall i :: 0 <= i < |data| ==> data[i].0 != key
    {
      AsMapOf(lt, data);
      assert forall i :: pos < i < |data| ==> lt(data[pos].0, data[i].0);
    }

    /** Inserts a new key or overwrites the value of an existing one. */
    method InsertOrAssign(key: K, val: V) returns (inserted: bool)
      requires Valid()
      modifies this`data
      ensures Valid() && (inserted <==> key !in AsMap(old(data)))
      ensures AsMap(data) == AsMap(old(data))[key := val]
    {
      AsMapOf(lt, data);
      var pos := LowerBound(0, |data|, key);
      if pos == |data| || lt(key, data[pos].0) {
        NotInMap(pos, key);
        AboveNewKey(lt, data, key, pos);
        data := data[..pos] + [(key, val)] + data[pos..];
        InsertSlices(old(data), pos, (key, val));
        InsertMeaning(lt, old(data), data, pos, key, val);
        return true;
      }
      AssignMeaning(lt, data, pos, val);
      data := data[pos := (data[pos].0, val)];
      return false;
    }

    /** Removes a key; the number of pairs removed. */
    method Erase(key: K) returns (n: nat)
      requires Valid()
      modifies this`data
      ensures Valid() && AsMap(data) == AsMap(old(data)) - {key}
      ensures n == if key in AsMap(old(data)) then 1 else 0
    {
      AsMapOf(lt, data);
      var lo := LowerBound(0, |data|, key);
      var hi := UpperBound(0, |data|, key);
      EraseRange(lt, data, lo, hi, key);
      n := hi - lo;
      if n > 0 {
        data := data[..lo] + data[hi..];
      }
      EraseSlices(old(data), lo, hi);
      assert data == old(data)[..lo] + old(data)[hi..];
      EraseMeaning(lt, old(data), data, lo, hi, key);
    }

    /** sorted_vector::circ_shift on start..stop: moves the last element to the front, or the first
        to the back, and shifts the others by one. */
    method CircShift(start: nat, stop: nat, up: bool) returns (moved: nat)
      requires start < stop <= |data|
      modifies this`data
      ensures moved == if up then start else stop - 1
      ensures IsShifted(old(data), data, if up then stop - 1 else start, moved)
    {
      if up {
        data := ShiftUp(data, start, stop);
        moved := start;
      } else {
        data := ShiftDown(data, start, stop);
        moved := stop - 1;
      }
    }

    /** Renames a key in place.  Returns the new position, or the end when the old key is missing or
        the new one is taken, in which case nothing changes. */
    method ReplaceKey(oldKey: K, newKey: K) returns (pos: nat)
      requires Valid()
      modifies this`data
      ensures Valid() && |data| == |old(data)| && pos <= |data|
      ensures pos < |data| <==> oldKey in AsMap(old(data)) && (newKey == oldKey || newKey !in AsMap(old(data)))
      ensures pos == |data| ==> data == old(data)
      ensures pos < |data| ==> oldKey in AsMap(old(data)) && AsMap(data) == Renamed(AsMap(old(data)), oldKey, newKey)
      ensures pos < |data| ==> data[pos].0 == newKey
      ensures multiset(Values(data)) == multiset(Values(old(data)))
    {
      AsMapOf(lt, data);
      var iter := LowerBound(0, |data|, oldKey);
      if iter == |data| || data[iter].0 != oldKey {
        NotInMap(iter, oldKey);
        return |data|;
      }
      if oldKey == newKey {
        assert Renamed(AsMap(data), oldKey, newKey) == AsMap(data);
        return iter;
      }
      if lt(oldKey, newKey) {
        pos := RenameUp(iter, newKey);
      } else {
        pos := RenameDown(iter, newKey);
      }
    }

    /** The new key sorts after the old one. */
    method RenameUp(iter: nat, newKey: K) returns (pos: nat)
      requires Valid() && iter < |data| && lt(data[iter].0, newKey)
      modifies this`data
      ensures Valid() && |data| == |old(data)| && pos <= |data|
      ensures pos < |data| <==> newKey !in AsMap(old(data))
      ensures pos == |data| ==> data == old(data)
      ensures old(data)[iter].0 in AsMap(old(data))
      ensures pos < |data| ==> AsMap(data) == Renamed(AsMap(old(data)), old(data)[iter].0, newKey) && data[pos].0 == newKey
      ensures multiset(Values(data)) == multiset(Values(old(data)))
    {
      AsMapOf(lt, data);
      var p := LowerBound(iter + 1, |data|, newKey);
      if p != |data| && data[p].0 == newKey {
        return |data|;
      }
      BelowNewKey(lt, data, iter, newKey, p);
      NotInMap(p, newKey);
      AboveNewKey(lt, data, newKey, p);
      pos := RenameTo(iter, p - 1, newKey);
    }

    /** Moves the pair at `iter` to its new place by a circular shift and gives it the new key. */
    method RenameTo(iter: nat, to: nat, newKey: K) returns (pos: nat)
      requires Valid() && iter < |data| && to < |data|
      requires forall i :: 0 <= i < (if iter <= to then to + 1 else to) && i != iter ==> lt(data[i].0, newKey)
      requires forall i :: (if iter <= to then to + 1 else to) <= i < |data| && i != iter ==> lt(newKey, data[i].0)
      modifies this`data
      ensures Valid() && |data| == |old(data)| && pos == to
      ensures old(data)[iter].0 in AsMap(old(data))
      ensures AsMap(data) == Renamed(AsMap(old(data)), old(data)[iter].0, newKey) && data[pos].0 == newKey
      ensures multiset(Values(data)) == multiset(Values(old(data)))
    {
      if to == iter {
        StayIsShift(data, iter);
        pos := iter;
      } else if iter < to {
        pos := CircShift(iter, to + 1, false);
      } else {
        pos := CircShift(to, iter + 1, true);
      }
      ghost var shifted := data;
      data := data[pos := (newKey, data[pos].1)];
      ShiftedIsMoved(old(data), shifted, iter, newKey, to);
      RenameMeaning(lt, old(data), data, iter, newKey, to);
      MovedValues(old(data), data, iter, newKey, to);
    }

    /** The position of a new key below `iter`, or the end when the key is taken. */
    method FreeSlotBelow(iter: nat, newKey: K) returns (p: nat)
      requires Valid() && iter < |data| && lt(newKey, data[iter].0)
      ensures p <= iter || p == |data|
      ensures p == |data| <==> newKey in AsMap(data)
      ensures p < |data| ==> forall i :: 0 <= i < p ==> lt(data[i].0, newKey)
      ensures p < |data| ==> forall i :: p <= i < |data| ==> lt(newKey, data[i].0)
    {
      AsMapOf(lt, data);
      p := UpperBound(0, iter, newKey);
      if p != 0 && data[p - 1].0 == newKey {
        return |data|;
      }
      UpToNewKey(lt, data, iter, newKey, p);
      NotInMap(p, newKey);
      AboveNewKey(lt, data, newKey, p);
    }

    /** The new key sorts before the old one. */
    method RenameDown(iter: nat, newKey: K) returns (pos: nat)
      requires Valid() && iter < |data| && lt(newKey, data[iter].0)
      modifies this`data
      ensures Valid() && |data| == |old(data)| && pos <= |data|
      ensures pos < |data| <==> newKey !in AsMap(old(data))
      ensures pos == |data| ==> data == old(data)
      ensures old(data)[iter].0 in AsMap(old(data))
      ensures pos < |data| ==> AsMap(data) == Renamed(AsMap(old(data)), old(data)[iter].0, newKey) && data[pos].0 == newKey
      ensures multiset(Values(data)) == multiset(Values(old(data)))
    {
      AsMapOf(lt, data);
      var p := FreeSlotBelow(iter, newKey);
      if p == |data| {
        return |data|;
      }
      pos := RenameTo(iter, p, newKey);
    }
  }

  // What the two searches establish about the keys around the insertion point.

  lemma BelowNewKey<K(!new), V>(lt: (K, K) -> bool, data: seq<(K, V)>, iter: nat, newKey: K, p: nat)
    requires StrictTotalOrder(lt) && SortedBy(lt, data) && iter < p <= |data| && lt(data[iter].0, newKey)
    requires forall i :: iter < i < p ==> lt(data[i].0, newKey)
    ensures forall i :: 0 <= i < p ==> lt(data[i].0, newKey)
  {
    forall i | 0 <= i < iter
      ensures lt(data[i].0, newKey)
    {
      assert lt(data[i].0, data[iter].0);
    }
  }

  lemma AboveNewKey<K(!new), V>(lt: (K, K) -> bool, data: seq<(K, V)>, newKey: K, p: nat)
    requires StrictTotalOrder(lt) && SortedBy(lt, data) && p <= |data|
    requires p < |data| ==> lt(newKey, data[p].0)
    ensures forall i :: p <= i < |data| ==> lt(newKey, data[i].0)
  {
    forall i | p < i < |data|
      ensures lt(newKey, data[i].0)
    {
      assert lt(data[p].0, data[i].0);
    }
  }

  lemma UpToNewKey<K(!new), V>(lt: (K, K) -> bool, data: seq<(K, V)>, iter: nat, newKey: K, p: nat)
    requires StrictTotalOrder(lt) && SortedBy(lt, data) && p <= iter < |data|
    requires forall i :: 0 <= i < p ==> !lt(newKey, data[i].0)
    requires p == 0 || data[p - 1].0 != newKey
    ensures forall i :: 0 <= i < p ==> lt(data[i].0, newKey)
  {
    forall i | 0 <= i < p
      ensures lt(data[i].0, newKey)
    {
      assert lt(data[p - 1].0, newKey);
      assert i < p - 1 ==> lt(data[i].0, data[p - 1].0);
    }
  }

  /** std::move_backward of start..stop-1, with the last element put in front. */
  method ShiftUp<T>(s: seq<T>, start: nat, stop: nat) returns (out: seq<T>)
    requires start < stop <= |s|
    ensures IsShifted(s, out, stop - 1, start)
  {
    var last := stop - 1;
    var tmp := s[last];
    var k := last;
    out := s;
    while k > start
      invariant start <= k <= last && |out| == |s|
      invariant forall i :: 0 <= i <= k || last < i < |s| ==> out[i] == s[i]
      invariant forall i :: k < i <= last ==> out[i] == s[i - 1]
    {
      out := out[k := out[k - 1]];
      k := k - 1;
    }
    out := out[start := tmp];
  }

  /** std::move of start+1..stop, with the first element put at the back. */
  method ShiftDown<T>(s: seq<T>, start: nat, stop: nat) returns (out: seq<T>)
    requires start < stop <= |s|
    ensures IsShifted(s, out, start, stop - 1)
  {
    var last := stop - 1;
    var tmp := s[start];
    var k := start;
    out := s;
    while k < last
      invariant start <= k <= last && |out| == |s|
      invariant forall i :: 0 <= i < start || k <= i < |s| ==> out[i] == s[i]
      invariant forall i :: start <= i < k ==> out[i] == s[i + 1]
    {
      out := out[k := out[k + 1]];
      k := k + 1;
    }
    out := out[last := tmp];
  }

  /** Where the pair at position i comes from once the pair at `iter` has moved to `to`. */
  function Source(iter: nat, to: nat, i: nat): nat {
    if i == to then iter
    else if iter <= i < to then i + 1
    else if to < i <= iter then i - 1
    else i
  }

  /** The element at `from` has moved to `to`, the elements between have shifted by one. */
  ghost predicate IsShifted<T>(data: seq<T>, out: seq<T>, from: nat, to: nat)
    requires from < |data| && to < |data|
  {
    && |out| == |data|
    && out[to] == data[from]
    && forall i :: 0 <= i < |data| && i != to ==> out[i] == data[Source(from, to, i)]
  }

  /** The pair at `iter` renamed and moved to position `to`, the pairs between shifted by one. */
  ghost predicate IsMoved<K, V>(data: seq<(K, V)>, out: seq<(K, V)>, iter: nat, newKey: K, to: nat)
    requires iter < |data| && to < |data|
  {
    && |out| == |data|
    && out[to] == (newKey, data[iter].1)
    && forall i :: 0 <= i < |data| && i != to ==> out[i] == data[Source(iter, to, i)]
  }

  lemma StayIsShift<T>(data: seq<T>, at: nat)
    requires at < |data|
    ensures IsShifted(data, data, at, at)
  {
  }

  lemma ShiftedIsMoved<K, V>(data: seq<(K, V)>, shifted: seq<(K, V)>, iter: nat, newKey: K, to: nat)
    requires iter < |data| && to < |data| && IsShifted(data, shifted, iter, to)
    ensures IsMoved(data, shifted[to := (newKey, shifted[to].1)], iter, newKey, to)
  {
  }

  lemma MovedSorted<K(!new), V>(lt: (K, K) -> bool, data: seq<(K, V)>, out: seq<(K, V)>, iter: nat, newKey: K, to: nat)
    requires SortedBy(lt, data) && iter < |data| && to < |data| && IsMoved(data, out, iter, newKey, to)
    requires forall i :: 0 <= i < (if iter <= to then to + 1 else to) && i != iter ==> lt(data[i].0, newKey)
    requires forall i :: (if iter <= to then to + 1 else to) <= i < |data| && i != iter ==> lt(newKey, data[i].0)
    ensures SortedBy(lt, out)
  {
  }

  lemma MovedPairs<K(!new), V>(data: seq<(K, V)>, out: seq<(K, V)>, iter: nat, newKey: K, to: nat, m: map<K, V>)
    requires iter < |data| && to < |data| && IsMoved(data, out, iter, newKey, to) && Holds(data, m)
    requires forall i, j :: 0 <= i < j < |data| ==> data[i].0 != data[j].0
    requires forall i :: 0 <= i < |data| && i != iter ==> data[i].0 != newKey
    ensures Holds(out, Renamed(m, data[iter].0, newKey))
  {
    var m' := Renamed(m, data[iter].0, newKey);
    forall k | k in m'
      ensures exists i :: 0 <= i < |out| && out[i].0 == k
    {
      if k == newKey {
        assert out[to].0 == k;
      } else {
        var s :| 0 <= s < |data| && data[s].0 == k;
        var i := if iter < s <= to then s - 1 else if to <= s < iter then s + 1 else s;
        assert Source(iter, to, i) == s && out[i].0 == k;
      }
    }
  }

  /** The values in key order. */
  ghost function Values<K, V>(data: seq<(K, V)>): seq<V> {
    seq(|data|, i requires 0 <= i < |data| => data[i].1)
  }

  /** Moving and renaming a pair leaves the multiset of values as it is. */
  lemma MovedValues<K, V>(data: seq<(K, V)>, out: seq<(K, V)>, iter: nat, newKey: K, to: nat)
    requires iter < |data| && to < |data| && IsMoved(data, out, iter, newKey, to)
    ensures multiset(Values(out)) == multiset(Values(data))
  {
    if iter <= to {
      MoveKeepsValues(Values(data), Values(out), iter, to);
    } else {
      MoveKeepsValues(Values(out), Values(data), to, iter);
    }
  }

  lemma MoveKeepsValues<V>(was: seq<V>, now: seq<V>, from: nat, to: nat)
    requires |now| == |was| && from <= to < |was| && now[to] == was[from]
    requires forall i :: 0 <= i < from || to < i < |was| ==> now[i] == was[i]
    requires forall i :: from <= i < to ==> now[i] == was[i + 1]
    ensures multiset(now) == multiset(was)
  {
    var x, block := was[from], was[from + 1..to + 1];
    assert was == was[..from] + ([x] + block) + was[to + 1..];
    assert now[from..to] == block;
    assert now == was[..from] + (block + [x]) + was[to + 1..];
  }

  lemma RenameMeaning<K(!new), V>(lt: (K, K) -> bool, data: seq<(K, V)>, out: seq<(K, V)>, iter: nat, newKey: K, to: nat)
    requires StrictTotalOrder(lt) && SortedBy(lt, data) && iter < |data| && to < |data|
    requires IsMoved(data, out, iter, newKey, to)
    requires forall i :: 0 <= i < (if iter <= to then to + 1 else to) && i != iter ==> lt(data[i].0, newKey)
    requires forall i :: (if iter <= to then to + 1 else to) <= i < |data| && i != iter ==> lt(newKey, data[i].0)
    ensures SortedBy(lt, out)
    ensures data[iter].0 in AsMap(data)
    ensures AsMap(out) == Renamed(AsMap(data), data[iter].0, newKey)
  {
    AsMapOf(lt, data);
    MovedSorted(lt, data, out, iter, newKey, to);
    forall i, j | 0 <= i < j < |data|
      ensures data[i].0 != data[j].0
    {
      assert lt(data[i].0, data[j].0);
    }
    MovedPairs(data, out, iter, newKey, to, AsMap(data));
    MapIs(lt, out, Renamed(AsMap(data), data[iter].0, newKey));
  }

  lemma InsertSlices<T>(s: seq<T>, pos: nat, x: T)
    requires pos <= |s|
    ensures var out := s[..pos] + [x] + s[pos..];
      && |out| == |s| + 1 && out[pos] == x
      && (forall i :: 0 <= i < pos ==> out[i] == s[i])
      && (forall i :: pos <= i < |s| ==> out[i + 1] == s[i])
  {
  }

  lemma EraseSlices<T>(s: seq<T>, lo: nat, hi: nat)
    requires lo <= hi <= |s|
    ensures IsCut(s, s[..lo] + s[hi..], lo, hi)
  {
  }

  lemma InsertMeaning<K(!new), V>(lt: (K, K) -> bool, data: seq<(K, V)>, out: seq<(K, V)>, pos: nat, key: K, val: V)
    requires StrictTotalOrder(lt) && SortedBy(lt, data) && pos <= |data|
    requires |out| == |data| + 1 && out[pos] == (key, val)
    requires forall i :: 0 <= i < pos ==> out[i] == data[i]
    requires forall i :: pos <= i < |data| ==> out[i + 1] == data[i]
    requires forall i :: 0 <= i < pos ==> lt(data[i].0, key)
    requires forall i :: pos <= i < |data| ==> lt(key, data[i].0)
    ensures SortedBy(lt, out)
    ensures AsMap(out) == AsMap(data)[key := val]
  {
    InsertSorted(lt, data, out, pos, key);
    InsertHolds(lt, data, out, pos, key, val);
    MapIs(lt, out, AsMap(data)[key := val]);
  }

  lemma InsertSorted<K(!new), V>(lt: (K, K) -> bool, data: seq<(K, V)>, out: seq<(K, V)>, pos: nat, key: K)
    requires StrictTotalOrder(lt) && SortedBy(lt, data) && pos <= |data|
    requires |out| == |data| + 1 && out[pos].0 == key
    requires forall i :: 0 <= i < pos ==> out[i] == data[i] && lt(data[i].0, key)
    requires forall i :: pos <= i < |data| ==> out[i + 1] == data[i] && lt(key, data[i].0)
    ensures SortedBy(lt, out)
  {
    forall i, j | 0 <= i < j < |out|
      ensures lt(out[i].0, out[j].0)
    {
      assert i > pos ==> out[i] == data[i - 1];
      assert j > pos ==> out[j] == data[j - 1];
    }
  }

  lemma InsertHolds<K(!new), V>(lt: (K, K) -> bool, data: seq<(K, V)>, out: seq<(K, V)>, pos: nat, key: K, val: V)
    requires StrictTotalOrder(lt) && SortedBy(lt, data) && pos <= |data|
    requires |out| == |data| + 1 && out[pos] == (key, val)
    requires forall i :: 0 <= i < pos ==> out[i] == data[i] && lt(data[i].0, key)
    requires forall i :: pos <= i < |data| ==> out[i + 1] == data[i] && lt(key, data[i].0)
    ensures Holds(out, AsMap(data)[key := val])
  {
    AsMapOf(lt, data);
    var m := AsMap(data)[key := val];
    forall i | 0 <= i < |out|
      ensures out[i].0 in m && m[out[i].0] == out[i].1
    {
      assert i > pos ==> out[i] == data[i - 1];
    }
    forall k | k in m
      ensures exists i :: 0 <= i < |out| && out[i].0 == k
    {
      if k == key {
        assert out[pos].0 == k;
      } else {
        var s :| 0 <= s < |data| && data[s].0 == k;
        assert out[if s < pos then s else s + 1] == data[s];
      }
    }
  }

  lemma AssignMeaning<K(!new), V>(lt: (K, K) -> bool, data: seq<(K, V)>, pos: nat, val: V)
    requires StrictTotalOrder(lt) && SortedBy(lt, data) && pos < |data|
    ensures SortedBy(lt, data[pos := (data[pos].0, val)])
    ensures AsMap(data[pos := (data[pos].0, val)]) == AsMap(data)[data[pos].0 := val]
  {
    var key := data[pos].0;
    var out, m := data[pos := (key, val)], AsMap(data)[key := val];
    AsMapOf(lt, data);
    forall i | 0 <= i < |out|
      ensures out[i].0 in m && m[out[i].0] == out[i].1
    {
      assert i < pos ==> lt(data[i].0, key);
      assert pos < i ==> lt(key, data[i].0);
    }
    forall k | k in m
      ensures exists i :: 0 <= i < |out| && out[i].0 == k
    {
      var s :| 0 <= s < |data| && data[s].0 == k;
      assert out[s].0 == k;
    }
    MapIs(lt, out, m);
  }

  /** The equal range of a key is one pair or none. */
  lemma EraseRange<K(!new), V>(lt: (K, K) -> bool, data: seq<(K, V)>, lo: nat, hi: nat, key: K)
    requires StrictTotalOrder(lt) && SortedBy(lt, data) && lo <= |data| && hi <= |data|
    requires forall i :: 0 <= i < lo ==> lt(data[i].0, key)
    requires forall i :: lo <= i < |data| ==> !lt(data[i].0, key)
    requires forall i :: 0 <= i < hi ==> !lt(key, data[i].0)
    requires forall i :: hi <= i < |data| ==> lt(key, data[i].0)
    ensures lo <= hi <= lo + 1
    ensures forall i :: 0 <= i < |data| ==> (data[i].0 == key <==> lo <= i < hi)
  {
    assert lo + 1 < |data| ==> lt(data[lo].0, data[lo + 1].0);
    assert hi < |data| ==> lt(key, data[hi].0);
  }

  /** `out` is `data` without the pairs lo..hi. */
  ghost predicate IsCut<T>(data: seq<T>, out: seq<T>, lo: nat, hi: nat) {
    && lo <= hi <= |data| && |out| == |data| - (hi - lo)
    && (forall i :: 0 <= i < lo ==> out[i] == data[i])
    && (forall i :: lo <= i < |out| ==> out[i] == data[i + hi - lo])
  }

  lemma CutSorted<K(!new), V>(lt: (K, K) -> bool, data: seq<(K, V)>, out: seq<(K, V)>, lo: nat, hi: nat)
    requires SortedBy(lt, data) && IsCut(data, out, lo, hi)
    ensures SortedBy(lt, out)
  {
    forall i, j | 0 <= i < j < |out|
      ensures lt(out[i].0, out[j].0)
    {
      var si, sj := if i < lo then i else i + hi - lo, if j < lo then j else j + hi - lo;
      assert out[i] == data[si] && out[j] == data[sj];
    }
  }

  lemma CutPairs<K(!new), V>(data: seq<(K, V)>, out: seq<(K, V)>, lo: nat, hi: nat, key: K, m: map<K, V>)
    requires IsCut(data, out, lo, hi) && Holds(data, m)
    requires forall i :: 0 <= i < |data| ==> (data[i].0 == key <==> lo <= i < hi)
    ensures Holds(out, m - {key})
    ensures hi > lo <==> key in m
  {
    forall k | k in m - {key}
      ensures exists i :: 0 <= i < |out| && out[i].0 == k
    {
      var s :| 0 <= s < |data| && data[s].0 == k;
      var i := if s < lo then s else s - (hi - lo);
      assert out[i] == data[s];
    }
    forall i | 0 <= i < |out|
      ensures out[i].0 in m - {key} && (m - {key})[out[i].0] == out[i].1
    {
      var s := if i < lo then i else i + hi - lo;
      assert out[i] == data[s];
    }
    if lo < hi {
      assert data[lo].0 == key;
    }
    if key in m {
      var s :| 0 <= s < |data| && data[s].0 == key;
      assert lo <= s < hi;
    }
  }

  lemma EraseMeaning<K(!new), V>(lt: (K, K) -> bool, data: seq<(K, V)>, out: seq<(K, V)>, lo: nat, hi: nat, key: K)
    requires StrictTotalOrder(lt) && SortedBy(lt, data) && IsCut(data, out, lo, hi)
    requires forall i :: 0 <= i < |data| ==> (data[i].0 == key <==> lo <= i < hi)
    ensures SortedBy(lt, out)
    ensures AsMap(out) == AsMap(data) - {key}
    ensures hi > lo <==> key in AsMap(data)
  {
    AsMapOf(lt, data);
    CutSorted(lt, data, out, lo, hi);
    CutPairs(data, out, lo, hi, key, AsMap(data));
    MapIs(lt, out, AsMap(data) - {key});
  }
}
