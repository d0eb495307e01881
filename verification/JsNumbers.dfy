/**
 JavaScript's 32-bit integer operators on mathematical integers, and what masking means arithmetically.
 */
module JsNumbers {
  import opened Arithmetic

  function Pow2(n: nat): nat
    ensures Pow2(n) > 0
  {
    if n == 0 then 1 else 2 * Pow2(n - 1)
  }

  const TWO32: nat := 0x1_0000_0000

  function ToUint32(x: int): nat {
    x % 0x1_0000_0000
  }

  function ToInt32(x: int): int {
    if ToUint32(x) < 0x8000_0000 then ToUint32(x) else ToUint32(x) - 0x1_0000_0000
  }

  /** `x` followed by `w` zero bits. */
  function Raise(x: nat, w: nat): nat {
    if w == 0 then x else 2 * Raise(x, w - 1)
  }

  /** `x << n`: the count is taken modulo 32. */
  function ShiftLeft(x: int, n: nat): int {
    ToInt32(Raise(ToUint32(x), n % 32))
  }

  /** Bitwise conjunction of two naturals, bit by bit. */
  function And(x: nat, y: nat): nat {
    if x == 0 || y == 0 then 0 else 2 * And(x / 2, y / 2) + (if x % 2 == 1 && y % 2 == 1 then 1 else 0)
  }

  /** `x & y`. */
  function BitAnd(x: int, y: int): int {
    ToInt32(And(ToUint32(x), ToUint32(y)))
  }

  // ----- arithmetic -----------------------------------------------------------------------------

  lemma {:induction false} RaiseMultiplies(x: nat, n: nat)
    ensures Raise(x, n) == x * Pow2(n)
  {
    if n > 0 {
      RaiseMultiplies(x, n - 1);
      assert x * (2 * Pow2(n - 1)) == 2 * (x * Pow2(n - 1));
    }
  }

  lemma {:induction false} RaiseAdd(x: nat, a: nat, b: nat)
    ensures Raise(x, a + b) == Raise(Raise(x, a), b)
  {
    if b > 0 {
      RaiseAdd(x, a, b - 1);
    }
  }

  lemma RaiseOctet(x: nat)
    ensures Raise(x, 0) == x && Raise(x, 8) == 0x100 * x
  {
    assert Raise(x, 1) == 2 * x;
    assert Raise(x, 3) == 8 * x;
    assert Raise(x, 5) == 32 * x;
    assert Raise(x, 7) == 128 * x;
  }

  lemma RaiseOctets(x: nat)
    ensures Raise(x, 16) == 0x10000 * x && Raise(x, 24) == 0x1000000 * x
  {
    var eight, sixteen := 8, 16;
    RaiseOctet(x);
    RaiseAdd(x, eight, eight);
    RaiseOctet(0x100 * x);
    RaiseAdd(x, sixteen, eight);
    RaiseOctet(0x10000 * x);
  }

  /** Reading a signed 32-bit integer back as unsigned loses nothing. */
  lemma Uint32OfInt32(x: int)
    ensures ToUint32(ToInt32(x)) == ToUint32(x) < TWO32
  {
  }

  lemma SmallUint32(x: nat)
    requires x < TWO32
    ensures ToUint32(x) == x
  {
  }

  // ----- masks ----------------------------------------------------------------------------------

  lemma HalveMod(x: nat, n: nat)
    ensures x % Pow2(n + 1) == 2 * ((x / 2) % Pow2(n)) + x % 2
  {
    var p := Pow2(n);
    var h := x / 2;
    assert h == p * (h / p) + h % p;
    assert 2 * (p * (h / p)) == 2 * p * (h / p);
    DivUnique(x, h / p, 2 * (h % p) + x % 2, 2 * p);
  }

  /** An odd mask keeps the lowest bit. */
  lemma AndOdd(x: nat, half: nat)
    ensures And(x, 2 * half + 1) == 2 * And(x / 2, half) + x % 2
  {
    assert (2 * half + 1) / 2 == half && (2 * half + 1) % 2 == 1;
  }

  /** The n low bits of x. */
  function LowBits(x: nat, n: nat): nat {
    if n == 0 then 0 else 2 * LowBits(x / 2, n - 1) + x % 2
  }

  lemma {:induction false} LowBitsAreRest(x: nat, n: nat)
    ensures LowBits(x, n) == x % Pow2(n)
  {
    if n > 0 {
      LowBitsAreRest(x / 2, n - 1);
      HalveMod(x, n - 1);
    }
  }

  lemma {:induction false} AndOnes(x: nat, n: nat)
    ensures And(x, Pow2(n) - 1) == LowBits(x, n)
  {
    if n > 0 {
      AndOnes(x / 2, n - 1);
      AndOdd(x, Pow2(n - 1) - 1);
    }
  }

  /** Masking with n ones keeps the n low bits. */
  lemma AndLow(x: nat, n: nat)
    ensures And(x, Pow2(n) - 1) == x % Pow2(n)
  {
    AndOnes(x, n);
    LowBitsAreRest(x, n);
  }

  /** An even mask clears the lowest bit. */
  lemma AndEven(x: nat, half: nat)
    ensures And(x, 2 * half) == 2 * And(x / 2, half)
  {
    assert 2 * half / 2 == half && 2 * half % 2 == 0;
  }

  /** Masking with n ones above k zeros clears the k low bits. */
  lemma {:induction false} AndHigh(x: nat, n: nat, k: nat)
    requires k <= n && x < Pow2(n)
    ensures Pow2(n) >= Pow2(k)
    ensures And(x, Pow2(n) - Pow2(k)) == x - x % Pow2(k)
  {
    if k == 0 {
      AndLow(x, n);
      DivUnique(x, 0, x, Pow2(n));
    } else {
      var h, ones := x / 2, Pow2(n - 1) - Pow2(k - 1);
      AndHigh(h, n - 1, k - 1);
      HalveMod(x, k - 1);
      AndEven(x, ones);
      var low := h % Pow2(k - 1);
      assert And(x, 2 * ones) == 2 * (h - low);
      assert x % Pow2(k) == 2 * low + x % 2;
      assert 2 * ones == Pow2(n) - Pow2(k) && x == 2 * h + x % 2;
    }
  }

  /** Equal after clearing the k low bits is equal after dropping them. */
  lemma ClearedIsPrefix(x: nat, y: nat, k: nat)
    ensures x - x % Pow2(k) == y - y % Pow2(k) <==> x / Pow2(k) == y / Pow2(k)
  {
    var p := Pow2(k);
    assert x == p * (x / p) + x % p && y == p * (y / p) + y % p;
    if x / p > y / p { MulGap(p, x / p, y / p); }
    if x / p < y / p { MulGap(p, y / p, x / p); }
  }

  /** Masking with ones above k zeros compares what is left after dropping k bits. */
  lemma MaskIsPrefix(x: nat, y: nat, n: nat, k: nat)
    requires k <= n && x < Pow2(n) && y < Pow2(n)
    ensures Pow2(k) <= Pow2(n)
    ensures And(x, Pow2(n) - Pow2(k)) == And(y, Pow2(n) - Pow2(k)) <==> x / Pow2(k) == y / Pow2(k)
  {
    AndHigh(x, n, k);
    AndHigh(y, n, k);
    ClearedIsPrefix(x, y, k);
  }

  lemma {:induction false} Pow2Grows(a: nat, b: nat)
    requires a < b
    ensures 2 * Pow2(a) <= Pow2(b)
    decreases b
  {
    if a + 1 < b {
      Pow2Grows(a, b - 1);
    }
  }

  lemma Pow2Of32(n: nat)
    requires n == 32
    ensures Pow2(n) == TWO32
  {
    assert Pow2(4) == 16;
    assert Pow2(8) == 0x100;
    assert Pow2(12) == 0x1000;
    assert Pow2(16) == 0x10000;
    assert Pow2(20) == 0x100000;
    assert Pow2(24) == 0x1000000;
    assert Pow2(28) == 0x10000000;
    assert Pow2(32) == TWO32;
  }

  /** Masking through the 32-bit operators compares the naturals the operands stand for. */
  lemma MaskedCompare(x: int, y: int, mask: int)
    ensures BitAnd(x, mask) == BitAnd(y, mask) <==>
            And(ToUint32(x), ToUint32(mask)) == And(ToUint32(y), ToUint32(mask))
  {
    AndBelow(ToUint32(x), ToUint32(mask));
    AndBelow(ToUint32(y), ToUint32(mask));
  }

  lemma {:induction false} AndBelow(x: nat, y: nat)
    ensures And(x, y) <= x
  {
    if x != 0 && y != 0 {
      AndBelow(x / 2, y / 2);
    }
  }
}
