/** Machine integers: the widths that matter, and 64-bit two's complement arithmetic. */
module MachineInts {

  const TWO16: nat := 0x1_0000
  const TWO32: nat := 0x1_0000_0000
  const TWO63: int := 0x8000_0000_0000_0000
  const TWO64: int := 0x1_0000_0000_0000_0000

  predicate IsI64(x: int) {
    -0x8000_0000_0000_0000 <= x < 0x8000_0000_0000_0000
  }

  /** The 64-bit two's complement value congruent to x. */
  function Wrap64(x: int): (r: int)
    ensures IsI64(r)
  {
    (x + TWO63) % TWO64 - TWO63
  }

  /** How many times 2^64 the wrap adds. */
  ghost function Turns(x: int): (k: int)
    ensures Wrap64(x) == x + k * TWO64
  {
    -((x + TWO63) / TWO64)
  }

  lemma WrapUnique(x: int, y: int, k: int)
    requires x == y + k * TWO64
    ensures Wrap64(x) == Wrap64(y)
  {
    var a, b := Turns(x), Turns(y);
    assert Wrap64(x) - Wrap64(y) == (k + a - b) * TWO64;
    assert k + a - b == 0;
  }

  lemma WrapExact(x: int)
    requires IsI64(x)
    ensures Wrap64(x) == x
  {
  }
}
