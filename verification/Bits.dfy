/** Unsigned machine integers as natural numbers: bytes, the 64-bit word size, and the
    bitwise operators of the source, with the arithmetic facts the other modules rely on. */
module Bits {

  type byte = x: int | 0 <= x < 256

  // One past the largest value of a 64-bit size_t.
  const WORD: nat := 0x1_0000_0000_0000_0000

  function Min(a: nat, b: nat): nat { if a < b then a else b }

  function Pow2(k: nat): (p: nat)
    ensures p >= 1
  {
    if k == 0 then 1 else 2 * Pow2(k - 1)
  }

  function And(x: nat, y: nat): nat {
    if x == 0 || y == 0 then 0
    else 2 * And(x / 2, y / 2) + (if x % 2 == 1 && y % 2 == 1 then 1 else 0)
  }

  function Or(x: nat, y: nat): nat
    decreases x + y
  {
    if x == 0 then y
    else if y == 0 then x
    else 2 * Or(x / 2, y / 2) + (if x % 2 == 1 || y % 2 == 1 then 1 else 0)
  }

  function Xor(x: nat, y: nat): nat
    decreases x + y
  {
    if x == 0 && y == 0 then 0
    else 2 * Xor(x / 2, y / 2) + (if x % 2 != y % 2 then 1 else 0)
  }

  lemma {:induction false} Pow2Add(a: nat, b: nat)
    ensures Pow2(a + b) == Pow2(a) * Pow2(b)
  {
    if a != 0 {
      Pow2Add(a - 1, b);
      assert a + b - 1 == a - 1 + b;
    }
  }

  lemma Pow2Values()
    ensures Pow2(2) == 4 && Pow2(3) == 8 && Pow2(4) == 16 && Pow2(6) == 64 && Pow2(7) == 128
    ensures Pow2(8) == 256 && Pow2(16) == 0x1_0000 && Pow2(64) == WORD
  {
    assert Pow2(2) == 4;
    Pow2Add(2, 1);
    Pow2Add(2, 2);
    Pow2Add(4, 2);
    Pow2Add(4, 3);
    Pow2Add(4, 4);
    Pow2Add(8, 8);
    Pow2Add(16, 16);
    Pow2Add(32, 32);
  }

  /** Masking with 2^k - 1 is the remainder modulo 2^k. */
  lemma {:induction false} AndMask(x: nat, k: nat)
    ensures And(x, Pow2(k) - 1) == x % Pow2(k)
  {
    if k != 0 && x != 0 {
      AndMask(x / 2, k - 1);
      var m := Pow2(k) - 1;
      assert m / 2 == Pow2(k - 1) - 1 && m % 2 == 1;
      assert And(x, m) == 2 * And(x / 2, m / 2) + x % 2;
      DivModTwice(x, Pow2(k - 1));
    }
  }

  /** Quotient and remainder are unique. */
  lemma DivModUnique(m: nat, q: nat, r: nat)
    requires r < m
    ensures (m * q + r) / m == q && (m * q + r) % m == r
  {
    var x := m * q + r;
    var d := q - x / m;
    assert m * d == x % m - r by {
      assert x == m * (x / m) + x % m;
    }
    if d >= 1 {
      MulAtLeast(m, d);
    } else if d <= -1 {
      MulAtLeast(m, -d);
    }
  }

  lemma MulAtLeast(m: nat, d: int)
    requires d >= 1
    ensures m * d >= m
  {
  }

  lemma ModOfSum(m: nat, q: nat, r: nat)
    requires m > 0
    ensures (m * q + r) % m == r % m
  {
    var q', r' := r / m, r % m;
    assert m * q + r == m * (q + q') + r';
    DivModUnique(m, q + q', r');
  }

  lemma DivModTwice(x: nat, h: nat)
    requires h > 0
    ensures x % (2 * h) == 2 * ((x / 2) % h) + x % 2
  {
    var q, r := (x / 2) / h, (x / 2) % h;
    assert x == (2 * h) * q + (2 * r + x % 2) by {
      assert x / 2 == h * q + r;
      assert 2 * (h * q) == (2 * h) * q;
    }
    DivModUnique(2 * h, q, 2 * r + x % 2);
  }

  /** OR-ing a value into the empty low bits of another one adds it. */
  lemma {:induction false} OrLow(a: nat, b: nat, k: nat)
    requires b < Pow2(k)
    ensures Or(a * Pow2(k), b) == a * Pow2(k) + b
  {
    if k != 0 && a != 0 && b != 0 {
      var h := Pow2(k - 1);
      var x := a * Pow2(k);
      assert x == 2 * (a * h);
      assert x / 2 == a * h && x % 2 == 0;
      assert x > 0;
      OrLow(a, b / 2, k - 1);
    }
  }

  /** Applying the same mask twice gives the value back. */
  lemma {:induction false} XorCancel(x: nat, y: nat)
    ensures Xor(Xor(x, y), y) == x
    decreases x + y
  {
    if x != 0 || y != 0 {
      XorCancel(x / 2, y / 2);
      var z := Xor(x, y);
      assert z / 2 == Xor(x / 2, y / 2);
    }
  }

  lemma {:induction false} XorBound(x: nat, y: nat, k: nat)
    requires x < Pow2(k) && y < Pow2(k)
    ensures Xor(x, y) < Pow2(k)
  {
    if k != 0 {
      XorBound(x / 2, y / 2, k - 1);
    }
  }

  function XorByte(x: byte, y: byte): (z: byte)
    ensures Xor(z, y) == x
  {
    Pow2Values();
    XorBound(x, y, 8);
    XorCancel(x, y);
    Xor(x, y)
  }

  /** A right shift by k bits. */
  function Shr(x: nat, k: nat): nat {
    if k == 0 then x else Shr(x, k - 1) / 2
  }

  /** Shifting once more by a byte. */
  lemma ShrByte(x: nat, k: nat)
    ensures Shr(x, k + 8) == Shr(x, k) / 256
  {
    assert Shr(x, k + 2) == Shr(x, k) / 4;
    assert Shr(x, k + 4) == Shr(x, k + 2) / 4;
    assert Shr(x, k + 6) == Shr(x, k + 4) / 4;
    assert Shr(x, k + 8) == Shr(x, k + 6) / 4;
  }

  lemma {:induction false} ShrBound(x: nat, k: nat, j: nat)
    requires x < Pow2(j + k)
    ensures Shr(x, k) < Pow2(j)
  {
    if k != 0 {
      ShrBound(x, k - 1, j + 1);
    }
  }

  // ---- Bit by bit ----

  lemma Unfolded(x: nat, y: nat)
    ensures And(x, y) == 2 * And(x / 2, y / 2) + (if x % 2 == 1 && y % 2 == 1 then 1 else 0)
    ensures Or(x, y) == 2 * Or(x / 2, y / 2) + (if x % 2 == 1 || y % 2 == 1 then 1 else 0)
    ensures Xor(x, y) == 2 * Xor(x / 2, y / 2) + (if x % 2 != y % 2 then 1 else 0)
  {
  }

  lemma {:induction false} Shifted(x: nat, y: nat, k: nat)
    ensures Shr(And(x, y), k) == And(Shr(x, k), Shr(y, k))
    ensures Shr(Or(x, y), k) == Or(Shr(x, k), Shr(y, k))
    ensures Shr(Xor(x, y), k) == Xor(Shr(x, k), Shr(y, k))
  {
    hide And, Or, Xor;
    if k != 0 {
      Shifted(x, y, k - 1);
      Unfolded(Shr(x, k - 1), Shr(y, k - 1));
    }
  }

  /** Bit k of an AND, an OR and an exclusive OR. */
  lemma BitByBit(x: nat, y: nat, k: nat)
    ensures Shr(And(x, y), k) % 2 == 1 <==> Shr(x, k) % 2 == 1 && Shr(y, k) % 2 == 1
    ensures Shr(Or(x, y), k) % 2 == 1 <==> Shr(x, k) % 2 == 1 || Shr(y, k) % 2 == 1
    ensures Shr(Xor(x, y), k) % 2 == 1 <==> Shr(x, k) % 2 != Shr(y, k) % 2
  {
    hide And, Or, Xor;
    Shifted(x, y, k);
    Unfolded(Shr(x, k), Shr(y, k));
  }
}
