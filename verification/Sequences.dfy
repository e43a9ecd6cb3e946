/** Repetition of sequences. */
module Sequences {
  import opened Arithmetic

  /** `s` written `n` times in a row: the meaning of a multiplier. */
  function Repeat<T>(s: seq<T>, n: nat): seq<T> {
    if n == 0 then [] else s + Repeat(s, n - 1)
  }

  lemma {:induction false} RepeatLength<T>(s: seq<T>, n: nat)
    ensures |Repeat(s, n)| == Times(n, |s|)
  {
    if n > 0 {
      RepeatLength(s, n - 1);
    }
  }

  lemma {:induction false} RepeatAdd<T>(s: seq<T>, a: nat, b: nat)
    ensures Repeat(s, a + b) == Repeat(s, a) + Repeat(s, b)
  {
    if a > 0 {
      RepeatAdd(s, a - 1, b);
      assert Repeat(s, a + b) == s + Repeat(s, a - 1 + b);
    }
  }

  lemma {:induction false} RepeatRepeat<T>(s: seq<T>, a: nat, b: nat)
    ensures Repeat(Repeat(s, a), b) == Repeat(s, Times(b, a))
  {
    if b > 0 {
      RepeatRepeat(s, a, b - 1);
      RepeatAdd(s, a, Times(b - 1, a));
    }
  }

  lemma RepeatOnce<T>(s: seq<T>)
    ensures Repeat(s, 1) == s
  {
    assert Repeat(s, 1) == s + Repeat(s, 0);
  }
}
