/** Arithmetic modulo 2^32, the way `uint32_t` counters are kept. */
module Modular {
  import opened Bytes

  /** A `uint32_t` cast to `int` */
  function AsInt(x: u32): (r: int)
    ensures -0x8000_0000 <= r < 0x8000_0000 && Wrap32(r) == x
  {
    if x < 0x8000_0000 then x else x - TWO32
  }

  predicate Congruent(a: int, b: int) {
    Wrap32(a) == Wrap32(b)
  }

  lemma WrapUnique(x: int, q: int, r: u32)
    requires x == q * TWO32 + r
    ensures Wrap32(x) == r
  {
  }

  lemma CongruentShift(a: int, k: int)
    ensures Congruent(a, a + k * TWO32)
  {
    var q := a / TWO32;
    WrapUnique(a, q, Wrap32(a));
    WrapUnique(a + k * TWO32, q + k, Wrap32(a));
  }

  lemma CongruentBy(a: int, b: int) returns (k: int)
    requires Congruent(a, b)
    ensures b == a + k * TWO32
  {
    k := b / TWO32 - a / TWO32;
  }

  lemma CongruentAdd(a: int, b: int, c: int, d: int)
    requires Congruent(a, b) && Congruent(c, d)
    ensures Congruent(a + c, b + d)
  {
    var j := CongruentBy(a, b);
    var k := CongruentBy(c, d);
    hide Congruent;
    CongruentShift(a + c, j + k);
  }

  lemma WrapCongruent(a: int)
    ensures Congruent(Wrap32(a), a)
  {
    var q := a / TWO32;
    assert Wrap32(a) == a - q * TWO32;
    CongruentShift(Wrap32(a), q);
  }

  lemma CongruentSmall(a: u32, b: u32)
    requires Congruent(a, b)
    ensures a == b
  {
  }

  lemma CongruentChain(a: int, b: int, c: int)
    requires Congruent(a, b) && Congruent(b, c)
    ensures Congruent(a, c)
  {
  }

  lemma WrapSmall(a: u32)
    ensures Wrap32(a) == a
  {
  }

  lemma WrapBy(x: int)
    requires -TWO32 <= x < 2 * TWO32
    ensures Wrap32(x) == x + if x < 0 then TWO32 else if x < TWO32 then 0 else -TWO32
  {
  }

  lemma WrapSum(a: int, b: int)
    ensures Wrap32(Wrap32(a) + b) == Wrap32(a + b)
  {
    hide Wrap32;
    WrapCongruent(a);
    CongruentAdd(Wrap32(a), a, b, b);
  }

  lemma WrapDifference(a: int, b: int)
    ensures Wrap32(a - Wrap32(b)) == Wrap32(a - b)
  {
    hide Wrap32;
    WrapCongruent(b);
    var k := CongruentBy(b, Wrap32(b));
    CongruentShift(a - b, -k);
  }

  /** Subtracting changes a counter unless nothing is subtracted. */
  lemma WrapMoves(a: int, n: u32)
    ensures Wrap32(a - n) == Wrap32(a) <==> n == 0
  {
    hide Wrap32;
    if Wrap32(a - n) == Wrap32(a) {
      CongruentAdd(a, a - n, -a + n, -a + n);
      CongruentSmall(n, 0);
    }
  }
}
