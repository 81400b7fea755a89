/** Signed 64-bit integers with the two's-complement wrap-around of the ledger's amounts and nonces. */
module Integers {

  const TWO64: int := 0x1_0000_0000_0000_0000
  const MAX: int := 0x7fff_ffff_ffff_ffff
  const MIN: int := -0x8000_0000_0000_0000

  type int64 = x: int | MIN <= x <= MAX

  predicate Fits(x: int) {
    MIN <= x <= MAX
  }

  /** One addition or subtraction of two int64 values overshoots by at most one turn. */
  function Wrap(x: int): int64
    requires MIN - TWO64 <= x <= MAX + TWO64
  {
    if x > MAX then x - TWO64 else if x < MIN then x + TWO64 else x
  }

  function Add(a: int64, b: int64): int64 {
    Wrap(a + b)
  }

  function Sub(a: int64, b: int64): int64 {
    Wrap(a - b)
  }

  function Turns(k: int): int {
    k * TWO64
  }

  /** Equality up to whole turns: what wrapped arithmetic preserves. */
  ghost predicate Congruent(x: int, y: int) {
    exists k :: x == y + Turns(k)
  }

  lemma CongruentRefl(x: int)
    ensures Congruent(x, x)
  {
    assert x == x + Turns(0);
  }

  lemma AddCongruent(a: int64, b: int64, x: int)
    requires Congruent(a, x)
    ensures Congruent(Add(a, b), x + b)
  {
    var k :| a == x + Turns(k);
    var turn := if a + b > MAX then -1 else if a + b < MIN then 1 else 0;
    assert Add(a, b) == x + b + Turns(k + turn);
  }

  lemma SubCongruent(a: int64, b: int64, x: int)
    requires Congruent(a, x)
    ensures Congruent(Sub(a, b), x - b)
  {
    var k :| a == x + Turns(k);
    var turn := if a - b > MAX then -1 else if a - b < MIN then 1 else 0;
    assert Sub(a, b) == x - b + Turns(k + turn);
  }

  /** Two int64 values that are congruent to the same integer are the same value. */
  lemma CongruentUnique(a: int64, b: int64, x: int)
    requires Congruent(a, x) && Congruent(b, x)
    ensures a == b
  {
    var k :| a == x + Turns(k);
    var j :| b == x + Turns(j);
    assert a - b == Turns(k - j);
  }
}
