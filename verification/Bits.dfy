/** Machine words as bounded integers, with the bitwise operators that the C and ARM
    sources apply to them, and the arithmetic meaning of those operators. */
module Bits {
  const WORD_MODULUS: nat := 0x1_0000_0000
  const WORD_BITS: nat := 32
  const BYTE_BITS: nat := 8

  type Byte = x: int | 0 <= x < 0x100
  type Word32 = x: int | 0 <= x < 0x1_0000_0000

  function Pow2(k: nat): (p: nat)
    ensures p > 0
  {
    if k == 0 then 1 else 2 * Pow2(k - 1)
  }

  /** `x & y`, bit by bit. */
  function And(x: nat, y: nat): (r: nat)
    ensures r <= x && r <= y
  {
    if x == 0 || y == 0 then 0 else 2 * And(x / 2, y / 2) + (if x % 2 == 1 && y % 2 == 1 then 1 else 0)
  }

  /** `x | y`, bit by bit. */
  function Or(x: nat, y: nat): (r: nat)
    ensures r <= x + y
  {
    if x == 0 then y
    else if y == 0 then x
    else 2 * Or(x / 2, y / 2) + (if x % 2 == 1 || y % 2 == 1 then 1 else 0)
  }

  /** x * 2^k. */
  function Scale(x: nat, k: nat): nat
    decreases k
  {
    if k == 0 then x else 2 * Scale(x, k - 1)
  }

  /** Left shift of a 32-bit register: bits pushed past bit 31 are lost. */
  function Lsl(x: nat, k: nat): Word32 {
    Scale(x, k) % WORD_MODULUS
  }

  function Lsr(x: nat, k: nat): (r: nat)
    ensures r <= x
    decreases k
  {
    if k == 0 then x else Lsr(x / 2, k - 1)
  }

  /** Subtraction of unsigned 32-bit values, wrapping. */
  function Sub32(x: Word32, y: Word32): Word32 {
    (x - y) % WORD_MODULUS
  }

  function Min(a: nat, b: nat): nat { if a <= b then a else b }

  // ---- Division with a variable divisor

  lemma MulAtLeast(d: nat, t: nat)
    requires t >= 1
    ensures d * t >= d
  {}

  lemma DivModIs(x: nat, d: nat, q: nat, r: nat)
    requires r < d && x == d * q + r
    ensures x / d == q && x % d == r
  {
    var q', r' := x / d, x % d;
    assert x == d * q' + r';
    if q > q' {
      assert d * (q - q') == d * q - d * q';
      MulAtLeast(d, q - q');
    } else if q < q' {
      assert d * (q' - q) == d * q' - d * q;
      MulAtLeast(d, q' - q);
    }
  }

  lemma DivModOf(x: nat, d: nat)
    requires d > 0
    ensures x == d * (x / d) + x % d && x % d < d
  {}

  lemma Assoc(a: nat, b: nat, c: nat)
    ensures (a * b) * c == a * (b * c)
  {}

  /** Dividing by 2p is halving, then dividing by p. */
  lemma HalfThenDiv(x: nat, p: nat)
    requires p > 0
    ensures x / (2 * p) == (x / 2) / p
    ensures x % (2 * p) == 2 * ((x / 2) % p) + x % 2
  {
    var h := x / 2;
    DivModOf(h, p);
    Assoc(2, p, h / p);
    DivModIs(x, 2 * p, h / p, 2 * (h % p) + x % 2);
  }

  // ---- What the operators compute

  lemma {:induction false} AndLowMask(x: nat, k: nat)
    ensures And(x, Pow2(k) - 1) == x % Pow2(k)
  {
    if k == 0 {
      assert x % 1 == 0;
    } else if x == 0 {
      DivModIs(0, Pow2(k), 0, 0);
    } else {
      var p := Pow2(k - 1);
      AndLowMask(x / 2, k - 1);
      HalfThenDiv(x, p);
      AndOdd(x, p - 1);
    }
  }

  lemma AndOdd(x: nat, m: nat)
    ensures And(x, 2 * m + 1) == 2 * And(x / 2, m) + x % 2
  {}

  lemma AndEven(x: nat, m: nat)
    ensures And(x, 2 * m) == 2 * And(x / 2, m)
  {
    assert (2 * m) / 2 == m && (2 * m) % 2 == 0;
    if x > 0 && m > 0 { assert And(x, 2 * m) == 2 * And(x / 2, (2 * m) / 2); }
  }

  /** A mask whose low k bits are clear sees only the bits of x from k upwards. */
  lemma {:induction false} AndHighMask(x: nat, k: nat, m: nat)
    ensures And(x, Scale(m, k)) == Scale(And(Lsr(x, k), m), k)
  {
    if k > 0 {
      AndEven(x, Scale(m, k - 1));
      AndHighMask(x / 2, k - 1, m);
    }
  }

  /** Fields that do not overlap: or-ing them together adds them. */
  lemma {:induction false} OrDisjoint(a: nat, k: nat, b: nat)
    requires b < Scale(1, k)
    ensures Or(Scale(a, k), b) == Scale(a, k) + b
    decreases k
  {
    if k > 0 {
      OrDisjoint(a, k - 1, b / 2);
      OrEven(Scale(a, k - 1), b);
    }
  }

  lemma OrEven(x: nat, b: nat)
    ensures Or(2 * x, b) == 2 * Or(x, b / 2) + b % 2
  {}

  lemma {:induction false} OrCommutes(x: nat, y: nat)
    ensures Or(x, y) == Or(y, x)
  {
    if x != 0 && y != 0 { OrCommutes(x / 2, y / 2); }
  }

  lemma {:induction false} LsrIsDiv(x: nat, k: nat)
    ensures Scale(1, k) == Pow2(k)
    ensures Lsr(x, k) == x / Pow2(k)
    decreases k
  {
    if k > 0 {
      LsrIsDiv(x / 2, k - 1);
      HalfThenDiv(x, Pow2(k - 1));
    }
  }

  lemma {:induction false} LsrScale(x: nat, k: nat, j: nat)
    ensures Lsr(Scale(x, k + j), j) == Scale(x, k)
    decreases j
  {
    if j > 0 { LsrScale(x, k, j - 1); }
  }

  lemma OrOdd(x: nat, b: nat)
    ensures Or(x, 2 * b + 1) == 2 * Or(x / 2, b) + 1
  {}

  lemma {:induction false} OrOnes(x: nat, k: nat)
    requires x < Scale(1, k)
    ensures Or(x, Scale(1, k) - 1) == Scale(1, k) - 1
    decreases k
  {
    if k > 0 {
      OrOnes(x / 2, k - 1);
      OrOdd(x, Scale(1, k - 1) - 1);
    }
  }

  /** Only the bits from k upwards of the second operand meet the first. */
  lemma {:induction false} OrAbove(a: nat, b: nat, k: nat, r: nat)
    requires r < Scale(1, k)
    ensures Or(Scale(a, k), Scale(b, k) + r) == Scale(Or(a, b), k) + r
    decreases k
  {
    if k > 0 {
      OrAbove(a, b, k - 1, r / 2);
      OrEven(Scale(a, k - 1), Scale(b, k) + r);
    }
  }

  /** Or-ing in the top bit of a word sets it, whether or not it was set already. */
  lemma {:induction false} OrTopBit(w: nat, k: nat)
    requires w < 2 * Scale(1, k)
    ensures Or(w, Scale(1, k)) == if w < Scale(1, k) then Scale(1, k) + w else w
    decreases k
  {
    OrCommutes(w, Scale(1, k));
    if k > 0 {
      OrTopBit(w / 2, k - 1);
      OrEven(Scale(1, k - 1), w);
      OrCommutes(w / 2, Scale(1, k - 1));
    }
  }

  lemma ScaleBy16(x: nat, k: nat)
    requires k >= 4
    ensures Scale(x, k) == 16 * Scale(x, k - 4)
  {
    assert Scale(x, k) == 4 * Scale(x, k - 2);
  }

  lemma ScaleBy256(x: nat, k: nat)
    requires k >= 8
    ensures Scale(x, k) == 0x100 * Scale(x, k - 8)
  {
    ScaleBy16(x, k);
    ScaleBy16(x, k - 4);
  }

  /** The shift distances that the sources use, as multipliers. */
  lemma ScaleTable(x: nat)
    ensures Scale(x, 1) == 2 * x
    ensures Scale(x, 7) == 0x80 * x && Scale(x, 8) == 0x100 * x
    ensures Scale(x, 11) == 0x800 * x && Scale(x, 12) == 0x1000 * x && Scale(x, 16) == 0x1_0000 * x
    ensures Scale(x, 23) == 0x80_0000 * x && Scale(x, 24) == 0x100_0000 * x && Scale(x, 25) == 0x200_0000 * x
    ensures Scale(x, 20) == 0x10_0000 * x && Scale(x, 31) == 0x8000_0000 * x && Scale(x, 32) == 0x1_0000_0000 * x
  {
    ScaleBy16(x, 7);
    ScaleBy256(x, 8);
    ScaleBy256(x, 11);
    ScaleBy256(x, 12);
    ScaleBy16(x, 4);
    ScaleBy256(x, 16);
    ScaleBy256(x, 23);
    ScaleBy256(x, 15);
    ScaleBy256(x, 24);
    ScaleBy256(x, 25);
    ScaleBy256(x, 17);
    ScaleBy256(x, 9);
    ScaleBy256(x, 31);
    ScaleBy16(x, 20);
    ScaleBy256(x, 32);
  }

  lemma LsrTable(x: nat)
    ensures Lsr(x, 1) == x / 2 && Lsr(x, 12) == x / 0x1000 && Lsr(x, 20) == x / 0x10_0000
    ensures Lsr(x, 32) == x / 0x1_0000_0000
    ensures Lsr(x, 23) == x / 0x80_0000 && Lsr(x, 24) == x / 0x100_0000 && Lsr(x, 25) == x / 0x200_0000
  {
    hide Lsr, Scale, Pow2;
    ScaleTable(1);
    LsrIsDiv(x, 1);
    LsrIsDiv(x, 12);
    LsrIsDiv(x, 20);
    LsrIsDiv(x, 32);
    LsrIsDiv(x, 23);
    LsrIsDiv(x, 24);
    LsrIsDiv(x, 25);
  }

  /** A byte shifted into place is or-ed in above what is already there. */
  lemma OrAt(c: nat, k: nat, unit: nat, b: nat)
    requires unit == Scale(1, k) && Scale(c, k) == unit * c && b < unit
    ensures Or(unit * c, b) == unit * c + b && Or(b, unit * c) == unit * c + b
  {
    OrDisjoint(c, k, b);
    OrCommutes(b, Scale(c, k));
  }

  /** The slot that an unbounded counter designates in a ring of 2^k slots. */
  function Slot(counter: nat, k: nat): (i: nat)
    ensures i < Pow2(k)
  {
    counter % Pow2(k)
  }

  /** `(i + 1) & (2^k - 1)`. */
  function NextSlot(i: nat, k: nat): nat {
    And(i + 1, Pow2(k) - 1)
  }

  /** A ring index stepped with a mask follows the unbounded counter modulo the ring size. */
  lemma MaskedStep(counter: nat, k: nat)
    ensures NextSlot(Slot(counter, k), k) == Slot(counter + 1, k)
  {
    AndLowMask(counter % Pow2(k) + 1, k);
    StepMod(counter, Pow2(k));
  }

  lemma StepMod(counter: nat, n: nat)
    requires n > 0
    ensures (counter % n + 1) % n == (counter + 1) % n
  {
    var q, r := counter / n, counter % n;
    DivModOf(counter, n);
    if r + 1 == n {
      assert n * (q + 1) == n * q + n;
      DivModIs(counter + 1, n, q + 1, 0);
      DivModIs(n, n, 1, 0);
    } else {
      DivModIs(counter + 1, n, q, r + 1);
      DivModIs(r + 1, n, 0, r + 1);
    }
  }
}
