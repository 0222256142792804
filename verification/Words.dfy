/** Machine integers: the wrapping of 64-bit atomics and the ranges of the configured values. */
module Words {

  const TWO_26 := 0x400_0000
  const TWO_32 := 0x1_0000_0000
  const TWO_58 := 0x400_0000_0000_0000
  const TWO_64 := 0x1_0000_0000_0000_0000
  const I64_MIN := -0x8000_0000_0000_0000
  const I64_MAX := 0x7FFF_FFFF_FFFF_FFFF
  const USIZE_MAX := 0xFFFF_FFFF_FFFF_FFFF

  function PowerOfTwo(k: nat): (p: nat)
    ensures p > 0
  {
    if k == 0 then 1 else 2 * PowerOfTwo(k - 1)
  }

  /** The ranges are those of the machine words. */
  lemma {:induction false} WordSizes()
    ensures TWO_26 == PowerOfTwo(26) && TWO_32 == PowerOfTwo(32) && TWO_58 == PowerOfTwo(58) && TWO_64 == PowerOfTwo(64)
    ensures I64_MIN == 0 - PowerOfTwo(63) && I64_MAX == PowerOfTwo(63) - 1 && USIZE_MAX == PowerOfTwo(64) - 1
  {
    assert PowerOfTwo(8) == 0x100;
    assert PowerOfTwo(16) == 0x1_0000;
    assert PowerOfTwo(24) == 0x100_0000;
    assert PowerOfTwo(32) == 0x1_0000_0000;
    assert PowerOfTwo(40) == 0x100_0000_0000;
    assert PowerOfTwo(48) == 0x1_0000_0000_0000;
    assert PowerOfTwo(56) == 0x100_0000_0000_0000;
  }

  predicate InI64(x: int) {
    I64_MIN <= x <= I64_MAX
  }

  predicate AreU32(w: seq<nat>) {
    forall i | 0 <= i < |w| :: w[i] < TWO_32
  }

  /** Two's complement wrapping into the signed 64-bit range, as atomic add and subtract perform it. */
  function Wrap(x: int): (r: int)
    ensures InI64(r)
    ensures InI64(x) ==> r == x
  {
    (x - I64_MIN) % TWO_64 + I64_MIN
  }

  /** Wrap(z) is the only 64-bit value that differs from z by a multiple of 2^64. */
  lemma {:induction false} WrapIsUnique(z: int, r: int, j: int)
    requires InI64(r) && r == z + TWO_64 * j
    ensures r == Wrap(z)
  {
    var q := (z - I64_MIN) / TWO_64;
    assert Wrap(z) == z - TWO_64 * q;
    assert -TWO_64 < TWO_64 * (j + q) < TWO_64;
  }

  function Turns(z: int): int {
    (z - I64_MIN) / TWO_64
  }

  lemma {:induction false} WrapTurns(z: int)
    ensures Wrap(z) == z - TWO_64 * Turns(z)
  {
  }

  /** Wrapping may be done early or late. */
  lemma {:induction false} WrapAbsorbs(x: int, y: int)
    ensures Wrap(Wrap(x) + y) == Wrap(x + y)
    ensures Wrap(Wrap(x) + Wrap(y)) == Wrap(x + y)
    ensures Wrap(Wrap(x) - Wrap(y)) == Wrap(x - y)
  {
    hide Wrap, Turns;
    WrapTurns(x);
    WrapTurns(y);
    WrapTurns(Wrap(x) + y);
    WrapIsUnique(x + y, Wrap(Wrap(x) + y), -Turns(x) - Turns(Wrap(x) + y));
    WrapTurns(Wrap(x) + Wrap(y));
    WrapIsUnique(x + y, Wrap(Wrap(x) + Wrap(y)), -Turns(x) - Turns(y) - Turns(Wrap(x) + Wrap(y)));
    WrapTurns(Wrap(x) - Wrap(y));
    WrapIsUnique(x - y, Wrap(Wrap(x) - Wrap(y)), -Turns(x) + Turns(y) - Turns(Wrap(x) - Wrap(y)));
  }
}
