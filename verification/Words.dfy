/** Machine words as bounded integers, and left shifts. A right shift is a quotient, a mask
    of low bits a remainder, and `|` of operands that share no set bit a sum. */
module Words {

  datatype Option<+T> = None | Some(value: T)

  type byte = x: int | 0 <= x < 256

  const TWO_31 := 0x8000_0000
  const TWO_32 := 0x1_0000_0000
  const TWO_63 := 0x8000_0000_0000_0000
  const TWO_64 := 0x1_0000_0000_0000_0000

  type u32 = x: int | 0 <= x < 0x1_0000_0000
  type u64 = x: int | 0 <= x < 0x1_0000_0000_0000_0000
  type i64 = x: int | -0x8000_0000_0000_0000 <= x < 0x8000_0000_0000_0000

  /** x << n, before any truncation to a word. */
  function Shl(x: nat, n: nat): (y: nat)
    ensures y >= x
    decreases n
  {
    if n == 0 then x else 2 * Shl(x, n - 1)
  }

  /** Shifting by seven bits more is a factor of 128. */
  lemma Shl7(x: nat, n: nat)
    ensures Shl(x, n + 7) == 128 * Shl(x, n)
  {
    assert Shl(x, n + 7) == 2 * Shl(x, n + 6) == 4 * Shl(x, n + 5) == 8 * Shl(x, n + 4);
    assert Shl(x, n + 4) == 2 * Shl(x, n + 3) == 4 * Shl(x, n + 2) == 8 * Shl(x, n + 1);
  }

  lemma {:induction false} ShlSum(x: nat, y: nat, n: nat)
    ensures Shl(x + y, n) == Shl(x, n) + Shl(y, n)
    decreases n
  {
    if n > 0 {
      ShlSum(x, y, n - 1);
    }
  }

  lemma {:induction false} ShlShl(x: nat, a: nat, b: nat)
    ensures Shl(Shl(x, a), b) == Shl(x, a + b)
    decreases b
  {
    if b > 0 {
      ShlShl(x, a, b - 1);
    }
  }

  lemma Shl32(x: nat, n: nat)
    requires n >= 32
    ensures Shl(x, n) == TWO_32 * Shl(x, n - 32)
  {
    Shl7(x, n - 7);
    Shl7(x, n - 14);
    Shl7(x, n - 21);
    Shl7(x, n - 28);
    assert Shl(x, n - 28) == 2 * Shl(x, n - 29) == 4 * Shl(x, n - 30) == 8 * Shl(x, n - 31);
  }

  lemma WrapMultiple(low: nat, y: nat)
    ensures (low + TWO_32 * y) % TWO_32 == low % TWO_32
  {
  }

  /** What is shifted past bit 31 does not reach the low word. */
  lemma LowWordKeeps(low: nat, x: nat, n: nat)
    requires n >= 32
    ensures (low + Shl(x, n)) % TWO_32 == low % TWO_32
  {
    Shl32(x, n);
    WrapMultiple(low, Shl(x, n - 32));
  }

  lemma LowWordOfWrapped(x: nat)
    ensures x % TWO_64 % TWO_32 == x % TWO_32
  {
  }

  /** Addition in a 32-bit word may wrap before or after the last operand. */
  lemma WrapSum(x: nat, y: nat)
    ensures (x % TWO_32 + y) % TWO_32 == (x + y) % TWO_32
  {
  }

  lemma WrapLongSum(x: nat, y: nat)
    ensures (x % TWO_64 + y) % TWO_64 == (x + y) % TWO_64
  {
  }
}
