/** Big-endian byte streams (write_bytes and read_bytes). */
module GdsBytes {
  import opened Counts

  type byte = x: int | 0 <= x < 256

  function Pow256(n: nat): nat {
    if n == 0 then 1 else 256 * Pow256(n - 1)
  }

  /** The `n` low bytes of a value, most significant first. */
  function Encode(val: nat, n: nat): (s: seq<byte>)
    ensures |s| == n
  {
    if n == 0 then [] else Encode(val / 256, n - 1) + [(val % 256) as byte]
  }

  function Decode(s: seq<byte>): nat {
    if s == [] then 0 else 256 * Decode(s[..|s| - 1]) + s[|s| - 1]
  }

  lemma {:induction false} DecodeEncode(val: nat, n: nat)
    requires val < Pow256(n)
    ensures Decode(Encode(val, n)) == val
  {
    if n > 0 {
      DecodeEncode(val / 256, n - 1);
      assert Encode(val, n)[..n - 1] == Encode(val / 256, n - 1);
    }
  }

  /** Shifts by whole bytes. */
  function ShiftRight(val: nat, k: nat): nat {
    if k == 0 then val else ShiftRight(val / 256, k - 1)
  }

  function ShiftLeft(val: nat, k: nat): nat
    decreases k
  {
    if k == 0 then val else ShiftLeft(256 * val, k - 1)
  }

  lemma {:induction false} ShiftRightNext(val: nat, k: nat)
    ensures ShiftRight(val, k + 1) == ShiftRight(val, k) / 256
  {
    if k > 0 {
      ShiftRightNext(val / 256, k - 1);
    }
  }

  lemma {:induction false} ShiftLeftSum(a: nat, b: nat, k: nat)
    ensures ShiftLeft(a + b, k) == ShiftLeft(a, k) + ShiftLeft(b, k)
    decreases k
  {
    if k > 0 {
      ShiftLeftSum(256 * a, 256 * b, k - 1);
      assert 256 * (a + b) == 256 * a + 256 * b;
    }
  }

  class OStream {
    var bytes: seq<byte>

    constructor ()
      ensures bytes == []
    {
      bytes := [];
    }

    /** write_bytes: the shift runs down from the top byte. */
    method WriteBytes(val: nat, n: nat)
      modifies this
      ensures bytes == old(bytes) + Encode(val, n)
    {
      for bidx := 0 to n
        invariant bytes == old(bytes) + Encode(ShiftRight(val, n - bidx), bidx)
      {
        var shft := n - 1 - bidx;
        ShiftRightNext(val, shft);
        bytes := bytes + [(ShiftRight(val, shft) % 256) as byte];
      }
    }

    /** A run of values of the same width. */
    method WriteAll(vals: seq<nat>, unit: nat)
      modifies this
      ensures bytes == old(bytes) + EncodeAll(vals, unit)
    {
      for k := 0 to |vals|
        invariant bytes == old(bytes) + EncodeAll(vals[..k], unit)
      {
        WriteBytes(vals[k], unit);
        assert vals[..k + 1] == vals[..k] + [vals[k]];
        EncodeAllAppend(vals[..k], [vals[k]], unit);
        assert EncodeAll([vals[k]], unit) == Encode(vals[k], unit);
      }
      assert vals[..|vals|] == vals;
    }
  }

  function EncodeAll(vals: seq<nat>, unit: nat): (s: seq<byte>)
    ensures |s| == unit * |vals|
  {
    if vals == [] then [] else Encode(vals[0], unit) + EncodeAll(vals[1..], unit)
  }

  lemma {:induction false} EncodeAllAppend(a: seq<nat>, b: seq<nat>, unit: nat)
    ensures EncodeAll(a + b, unit) == EncodeAll(a, unit) + EncodeAll(b, unit)
  {
    if a == [] {
      assert a + b == b;
    } else {
      assert (a + b)[1..] == a[1..] + b;
      EncodeAllAppend(a[1..], b, unit);
    }
  }

  /** What a reader yields: a value and the rest of the input; None when the input is refused. */
  type Read<+T> = Option<(T, seq<byte>)>

  function Take(s: seq<byte>, n: nat): (r: Read<nat>)
    ensures r.Some? ==> r.value.0 < Pow256(n) && |r.value.1| == |s| - n
  {
    if |s| < n then None
    else
      DecodeBound(s[..n]);
      Some((Decode(s[..n]), s[n..]))
  }

  lemma {:induction false} DecodeBound(s: seq<byte>)
    ensures Decode(s) < Pow256(|s|)
  {
    if s != [] {
      DecodeBound(s[..|s| - 1]);
    }
  }

  lemma TakeEncoded(val: nat, n: nat, rest: seq<byte>)
    requires val < Pow256(n)
    ensures Take(Encode(val, n) + rest, n) == Some((val, rest))
  {
    DecodeEncode(val, n);
    assert (Encode(val, n) + rest)[..n] == Encode(val, n) && (Encode(val, n) + rest)[n..] == rest;
  }

  class IStream {
    /** The bytes not read yet. */
    var rest: seq<byte>

    constructor (bytes: seq<byte>)
      ensures rest == bytes
    {
      rest := bytes;
    }

    /** read_bytes: each byte is shifted to its place and added in. */
    method ReadBytes(n: nat) returns (r: Result<nat>)
      modifies this
      ensures Matches(r, rest, Take(old(rest), n))
    {
      if |rest| < n {
        return Err;
      }
      var ans := 0;
      ghost var s := rest;
      ShiftLeftSum(0, 0, n);
      for bidx := 0 to n
        invariant |s| >= n && rest == s[bidx..]
        invariant ans == ShiftLeft(Decode(s[..bidx]), n - bidx)
      {
        var shft := n - 1 - bidx;
        var tmp := rest[0];
        rest := rest[1..];
        assert s[..bidx + 1][..bidx] == s[..bidx];
        ShiftLeftSum(256 * Decode(s[..bidx]), tmp, shft);
        ans := ans + ShiftLeft(tmp, shft);
      }
      return Ok(ans);
    }
  }

  /** A reader's outcome agrees with the specification of what it reads. */
  ghost predicate Matches<T>(r: Result<T>, rest: seq<byte>, spec: Read<T>) {
    match spec
    case None => r.Err?
    case Some((v, tail)) => r == Ok(v) && rest == tail
  }
}
