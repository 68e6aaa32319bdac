/** Exact-arithmetic stand-ins for the JavaScript number operations the
    calculator uses: Math.max, Math.pow with a whole exponent, Math.round,
    and numbers that may be Infinity. */
module Arith {

  datatype Option<T> = None | Some(value: T)

  /** Math.max on two numbers. */
  function Max(a: real, b: real): (r: real)
    ensures r >= a && r >= b
    ensures r == a || r == b
  {
    if a >= b then a else b
  }

  /** Math.pow(x, n) for a whole exponent n. */
  function Pow(x: real, n: nat): real
  {
    if n == 0 then 1.0 else x * Pow(x, n - 1)
  }

  /** Math.round: the nearest integer, halves rounded up. */
  function Round(x: real): (r: int)
    ensures r as real <= x + 0.5 < r as real + 1.0
  {
    (x + 0.5).Floor
  }

  lemma RoundMonotone(x: real, y: real)
    requires x <= y
    ensures Round(x) <= Round(y)
  {
  }

  /** Powers of a base above one are at least one and grow strictly. */
  lemma {:induction false} PowAboveOne(x: real, n: nat)
    requires x > 1.0
    ensures Pow(x, n) >= 1.0
    ensures n > 0 ==> Pow(x, n) > 1.0
    ensures Pow(x, n + 1) > Pow(x, n)
  {
    if n > 0 {
      PowAboveOne(x, n - 1);
    }
    assert Pow(x, n + 1) == x * Pow(x, n);
  }

  lemma {:induction false} PowStrictlyIncreasing(x: real, j: nat, k: nat)
    requires x > 1.0 && j < k
    ensures Pow(x, j) < Pow(x, k)
  {
    PowAboveOne(x, k - 1);
    if j < k - 1 {
      PowStrictlyIncreasing(x, j, k - 1);
    }
  }

  /** A JavaScript number that may have overflowed to Infinity: the payoff
      loop returns Infinity, and Infinity absorbs both + and Math.max. */
  datatype Ext = Num(value: real) | Infinity

  function Add(a: Ext, b: Ext): (r: Ext)
    ensures r.Infinity? <==> a.Infinity? || b.Infinity?
    ensures r.Num? ==> r.value == a.value + b.value
  {
    if a.Num? && b.Num? then Num(a.value + b.value) else Infinity
  }

  function MaxExt(a: Ext, b: Ext): (r: Ext)
    ensures r.Infinity? <==> a.Infinity? || b.Infinity?
    ensures r.Num? ==> r.value >= a.value && r.value >= b.value
    ensures r.Num? ==> r == a || r == b
  {
    if a.Num? && b.Num? then Num(Max(a.value, b.value)) else Infinity
  }

  /** Infinity - x for a finite x stays Infinity. */
  function Sub(a: Ext, b: real): (r: Ext)
    ensures r.Infinity? <==> a.Infinity?
    ensures r.Num? ==> r.value + b == a.value
  {
    if a.Num? then Num(a.value - b) else Infinity
  }

  /** `x <= 0` is false for Infinity. */
  predicate IsPositive(a: Ext)
  {
    a.Infinity? || a.value > 0.0
  }
}
