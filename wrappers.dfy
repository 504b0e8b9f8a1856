// Small shared value types.

module Wrappers {

  datatype Option<T> = None | Some(value: T)

  /** Sum of a sequence of naturals, used for running totals. */
  function Sum(s: seq<nat>): nat
  {
    if s == [] then 0 else Sum(s[..|s| - 1]) + s[|s| - 1]
  }

  lemma {:induction false} SumAppend(s: seq<nat>, t: seq<nat>)
    ensures Sum(s + t) == Sum(s) + Sum(t)
    decreases |t|
  {
    if t == [] {
      assert s + t == s;
    } else {
      assert (s + t)[..|s + t| - 1] == s + t[..|t| - 1];
      SumAppend(s, t[..|t| - 1]);
    }
  }

  function Min(a: int, b: int): int
  {
    if a < b then a else b
  }

  function Max(a: int, b: int): int
  {
    if a > b then a else b
  }

  /** Rounds v up to a multiple of a, as the engine's AlignValue does for the alignments it is given. */
  function AlignValue(v: nat, a: nat): (r: nat)
    requires a > 0
    ensures r % a == 0 && v <= r < v + a
  {
    DivisionFacts(v + a - 1, a);
    ((v + a - 1) / a) * a
  }

  lemma DivisionFacts(n: nat, a: nat)
    requires a > 0
    ensures n - a < (n / a) * a <= n && ((n / a) * a) % a == 0
  {
    var q, m := n / a, n % a;
    assert n == q * a + m && 0 <= m < a;
    MultipleMod(q, a);
  }

  lemma MultipleMod(q: nat, a: nat)
    requires a > 0
    ensures (q * a) % a == 0
  {
    var n := q * a;
    var d := q - n / a;
    assert d * a == n % a by {
      assert n == (n / a) * a + n % a;
      assert d * a == q * a - (n / a) * a;
    }
  }
}
