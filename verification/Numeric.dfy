/** Bit arithmetic of `kernel/numeric/src/lib.rs` and `common/math.cc` on 64-bit words.
  *
  * A word is a natural number below `U64`.  Masking with a block of low bits is a
  * remainder, shifting right is a division, shifting left is a multiplication cut
  * off at `U64`.  Powers of two, alignment and single-bit flips are defined by
  * recursion on the bit position, so that reasoning about them stays linear.
  */
module Numeric {

  const U64 := 0x1_0000_0000_0000_0000

  function Pow2(n: nat): (p: nat)
    ensures p >= 1
  {
    if n == 0 then 1 else 2 * Pow2(n - 1)
  }

  /** The low `l` bits of `i` are zero. */
  predicate Aligned(i: nat, l: nat) {
    l == 0 || (i % 2 == 0 && Aligned(i / 2, l - 1))
  }

  /** `i ^ (1 << l)`. */
  function FlipBit(i: nat, l: nat): nat {
    if l == 0 then (if i % 2 == 0 then i + 1 else i - 1)
    else 2 * FlipBit(i / 2, l - 1) + i % 2
  }

  /** `i >> l`. */
  function ShiftRight(i: nat, l: nat): nat {
    if l == 0 then i else ShiftRight(i / 2, l - 1)
  }

  /** `i << l` without the cut-off at the word size. */
  function ShiftLeft(i: nat, l: nat): nat
    decreases l
  {
    if l == 0 then i else ShiftLeft(2 * i, l - 1)
  }

  // ----- powers of two and alignment

  lemma {:induction false} Pow2Monotone(a: nat, b: nat)
    requires a <= b
    ensures Pow2(a) <= Pow2(b)
    decreases b
  {
    if a < b {
      Pow2Monotone(a, b - 1);
    }
  }

  lemma {:induction false} Pow2StrictlyMonotone(a: nat, b: nat)
    requires a < b
    ensures Pow2(a) < Pow2(b)
  {
    Pow2Monotone(a + 1, b);
  }

  lemma {:induction false} Pow2Sum(a: nat, b: nat)
    ensures Pow2(a + b) == Pow2(a) * Pow2(b)
  {
    if a > 0 {
      Pow2Sum(a - 1, b);
      assert 2 * (Pow2(a - 1) * Pow2(b)) == (2 * Pow2(a - 1)) * Pow2(b);
    }
  }

  /** Aligned blocks of power-of-two size are nested or disjoint. */
  lemma {:induction false} NestedOrDisjoint(i: nat, l: nat, j: nat, m: nat)
    requires m <= l && Aligned(i, l) && Aligned(j, m)
    ensures j + Pow2(m) <= i || i + Pow2(l) <= j || (i <= j && j + Pow2(m) <= i + Pow2(l))
  {
    if m > 0 {
      NestedOrDisjoint(i / 2, l - 1, j / 2, m - 1);
    } else if l > 0 {
      NestedOrDisjoint(i / 2, l - 1, j / 2, 0);
    }
  }

  lemma {:induction false} AlignedWeaken(i: nat, l: nat, m: nat)
    requires m <= l && Aligned(i, l)
    ensures Aligned(i, m)
  {
    if m > 0 {
      AlignedWeaken(i / 2, l - 1, m - 1);
    }
  }

  /** Of a block and its buddy the lower one is the parent block, and the buddy
    * of the buddy is the block itself. */
  lemma {:induction false} BuddyFacts(i: nat, l: nat)
    requires Aligned(i, l)
    ensures FlipBit(i, l) == if Aligned(i, l + 1) then i + Pow2(l) else i - Pow2(l)
    ensures !Aligned(i, l + 1) ==> i >= Pow2(l)
    ensures Aligned(FlipBit(i, l), l)
    ensures Aligned(FlipBit(i, l), l + 1) <==> !Aligned(i, l + 1)
    ensures FlipBit(FlipBit(i, l), l) == i
  {
    if l > 0 {
      var b, c := FlipBit(i, l), FlipBit(i / 2, l - 1);
      assert b == 2 * c + i % 2 && b / 2 == c && b % 2 == i % 2;
      BuddyFacts(i / 2, l - 1);
    } else if i % 2 == 0 {
      assert (i + 1) / 2 == i / 2;
    } else {
      assert (i - 1) / 2 == i / 2;
    }
  }

  /** The upper half of an aligned block. */
  lemma {:induction false} UpperHalf(i: nat, l: nat)
    requires Aligned(i, l + 1)
    ensures Aligned(i, l) && Aligned(i + Pow2(l), l) && FlipBit(i, l) == i + Pow2(l)
    ensures FlipBit(i + Pow2(l), l) == i
  {
    AlignedWeaken(i, l + 1, l);
    BuddyFacts(i, l);
  }

  /** Alignment of the recursive definition is divisibility by the power of two. */
  lemma {:induction false} AlignedIsDivisible(i: nat, l: nat)
    ensures Aligned(i, l) <==> i % Pow2(l) == 0
  {
    if l > 0 {
      AlignedIsDivisible(i / 2, l - 1);
      EvenDivision(i, Pow2(l - 1));
    }
  }

  lemma EvenDivision(i: nat, d: nat)
    requires d > 0
    ensures i % (2 * d) == 0 <==> i % 2 == 0 && (i / 2) % d == 0
  {
    Division(i / 2, d);
    var q, r := (i / 2) / d, (i / 2) % d;
    assert 2 * (q * d) == q * (2 * d);
    DivisionUnique(i, 2 * d, q, 2 * r + i % 2);
  }

  lemma QuotientUnique(d: nat, q: nat, r: nat, q': nat, r': nat)
    requires r < d && r' < d && q * d + r == q' * d + r'
    ensures q == q' && r == r'
  {
    if q < q' {
      Multiples(q, q', d);
    } else if q' < q {
      Multiples(q', q, d);
    }
  }

  lemma Multiples(p: nat, q: nat, d: nat)
    ensures p < q ==> p * d + d <= q * d
    ensures p <= q ==> p * d <= q * d
  {
    if p < q {
      Product(q - p - 1, d);
      assert q * d == p * d + d + (q - p - 1) * d by {
        assert q == p + 1 + (q - p - 1);
      }
    }
  }

  lemma Product(a: nat, b: nat)
    ensures a * b >= 0
  {
  }

  lemma DivisionUnique(x: nat, d: nat, q: nat, r: nat)
    requires r < d && x == q * d + r
    ensures x / d == q && x % d == r
  {
    QuotientUnique(d, x / d, x % d, q, r);
  }

  // ----- rounding to an alignment

  predicate IsPow2(a: nat) {
    exists k: nat :: k <= a && a == Pow2(k)
  }

  /** `x & !(align - 1)`; the source asserts that `align` is a power of two. */
  function AlignDown(x: nat, align: nat): (r: nat)
    requires IsPow2(align)
    ensures r % align == 0
    ensures r <= x < r + align
  {
    Division(x, align);
    MultipleOf(x / align, align);
    (x / align) * align
  }

  function AlignUp(x: nat, align: nat): (r: nat)
    requires IsPow2(align)
    ensures r % align == 0
    ensures x <= r < x + align
  {
    AlignDown(x + align - 1, align)
  }

  lemma Division(x: nat, d: nat)
    requires d > 0
    ensures x == (x / d) * d + x % d && 0 <= x % d < d && x / d >= 0
  {
  }

  lemma MultipleOf(q: nat, d: nat)
    requires d > 0
    ensures (q * d) % d == 0
  {
    DivisionUnique(q * d, d, q, 0);
  }

  /** Multiples of `d` are at least `d` apart. */
  lemma MultiplesApart(x: nat, y: nat, d: nat)
    requires d > 0 && x % d == 0 && y % d == 0 && x < y
    ensures x + d <= y
  {
    Division(x, d);
    Division(y, d);
    Multiples(x / d, y / d, d);
    Multiples(y / d, x / d, d);
  }

  /** `AlignDown` is the greatest multiple not above `x`. */
  lemma AlignDownGreatest(x: nat, align: nat, y: nat)
    requires IsPow2(align) && y % align == 0
    ensures y <= x <==> y <= AlignDown(x, align)
  {
    if AlignDown(x, align) < y {
      MultiplesApart(AlignDown(x, align), y, align);
    }
  }

  /** `AlignUp` is the least multiple not below `x`. */
  lemma AlignUpLeast(x: nat, align: nat, y: nat)
    requires IsPow2(align) && y % align == 0
    ensures x <= y <==> AlignUp(x, align) <= y
  {
    if y < AlignUp(x, align) {
      MultiplesApart(y, AlignUp(x, align), align);
    }
  }

  /** Rounding any address of an aligned block down finds the start of the block. */
  lemma AlignDownFindsBlock(x: nat, align: nat, head: nat)
    requires IsPow2(align) && head % align == 0 && head <= x < head + align
    ensures AlignDown(x, align) == head
  {
    AlignDownGreatest(x, align, head);
    if head < AlignDown(x, align) {
      MultiplesApart(head, AlignDown(x, align), align);
    }
  }

  // ----- shifts

  lemma {:induction false} ShiftRightSum(x: nat, a: nat, b: nat)
    ensures ShiftRight(x, a + b) == ShiftRight(ShiftRight(x, a), b)
  {
    if a > 0 {
      ShiftRightSum(x / 2, a - 1, b);
    }
  }

  lemma {:induction false} AlignedSum(x: nat, a: nat, b: nat)
    ensures Aligned(x, a + b) <==> Aligned(x, a) && Aligned(ShiftRight(x, a), b)
  {
    if a > 0 {
      AlignedSum(x / 2, a - 1, b);
    }
  }

  lemma {:induction false} ShiftLeftSum(x: nat, a: nat, b: nat)
    ensures ShiftLeft(x, a + b) == ShiftLeft(ShiftLeft(x, a), b)
    decreases a
  {
    if a > 0 {
      ShiftLeftSum(2 * x, a - 1, b);
    }
  }

  lemma {:induction false} ShiftLeftMonotone(x: nat, y: nat, l: nat)
    ensures x < y <==> ShiftLeft(x, l) < ShiftLeft(y, l)
    decreases l
  {
    if l > 0 {
      ShiftLeftMonotone(2 * x, 2 * y, l - 1);
    }
  }

  lemma {:induction false} ShiftLeftPow2(n: nat, l: nat)
    ensures ShiftLeft(Pow2(n), l) == Pow2(n + l)
    decreases l
  {
    if l > 0 {
      ShiftLeftPow2(n + 1, l - 1);
    }
  }

  lemma {:induction false} ShiftRightBounds(x: nat, l: nat)
    requires ShiftRight(x, l) == 1
    ensures Pow2(l) <= x < Pow2(l + 1)
  {
    if l > 0 {
      ShiftRightBounds(x / 2, l - 1);
    }
  }

  /** Shifting is division and multiplication by a power of two. */
  lemma {:induction false} ShiftsAreProducts(x: nat, l: nat)
    ensures ShiftRight(x, l) == x / Pow2(l) && ShiftLeft(x, l) == x * Pow2(l)
    decreases l
  {
    if l > 0 {
      ShiftsAreProducts(x / 2, l - 1);
      ShiftsAreProducts(2 * x, l - 1);
      Halved(x, Pow2(l - 1));
    }
  }

  lemma Halved(x: nat, p: nat)
    requires p > 0
    ensures x / 2 / p == x / (2 * p) && 2 * x * p == x * (2 * p)
  {
    Division(x / 2, p);
    var q := x / 2 / p;
    var r := x / 2 % p;
    assert q * (2 * p) == 2 * (q * p);
    DivisionUnique(x, 2 * p, q, 2 * r + x % 2);
  }

  lemma Pow2Words()
    ensures Pow2(8) == 0x100 && Pow2(12) == 0x1000 && Pow2(16) == 0x1_0000
    ensures Pow2(32) == 0x1_0000_0000 && Pow2(63) == 0x8000_0000_0000_0000 && Pow2(64) == U64
  {
    hide Pow2;
    Pow2Small();
    Pow2Sum(4, 4);
    Pow2Sum(8, 4);
    Pow2Sum(8, 8);
    Pow2Sum(16, 16);
    Pow2Sum(32, 32);
    Pow2Sum(1, 63);
  }

  lemma Pow2Small()
    ensures Pow2(1) == 2 && Pow2(2) == 4 && Pow2(4) == 16
  {
  }

  lemma PageSizePow2()
    ensures IsPow2(4096)
  {
    Pow2Words();
  }

  // ----- lowest and highest set bit

  /** Bit `k` is the lowest set bit of `x`. */
  predicate LowestBit(x: nat, k: nat) {
    Aligned(x, k) && !Aligned(x, k + 1)
  }

  /** Bit `k` is the highest set bit of `x`. */
  predicate HighestBit(x: nat, k: nat) {
    Pow2(k) <= x < Pow2(k + 1)
  }

  // The masks and shifts of the searches: `c` is a power of two.

  function Mask(x: nat, c: nat): nat
    requires c > 0
  {
    x % c
  }

  function Right(x: nat, c: nat): nat
    requires c > 0
  {
    x / c
  }

  function Left(x: nat, c: nat): nat {
    (x * c) % U64
  }

  /** The powers of two that the searches use. */
  lemma SearchWords()
    ensures Pow2(1) == 2 && Pow2(2) == 4 && Pow2(4) == 0x10 && Pow2(8) == 0x100
    ensures Pow2(16) == 0x1_0000 && Pow2(32) == 0x1_0000_0000
    ensures Pow2(48) == 0x1_0000_0000_0000 && Pow2(56) == 0x100_0000_0000_0000
    ensures Pow2(60) == 0x1000_0000_0000_0000 && Pow2(62) == 0x4000_0000_0000_0000
    ensures Pow2(63) == 0x8000_0000_0000_0000 && Pow2(64) == U64
  {
    hide Pow2;
    Pow2Small();
    Pow2Words();
    Pow2Sum(32, 16);
    Pow2Sum(48, 8);
    Pow2Sum(56, 4);
    Pow2Sum(60, 2);
  }

  /** State of the search for the lowest bit: `k` zero bits were shifted out of `x0`
    * and the low `w` bits of the rest are not all zero. */
  ghost predicate LowState(x0: nat, x: nat, k: int, w: nat) {
    k >= 0 && Aligned(x0, k) && x == ShiftRight(x0, k) && !Aligned(x, w)
  }

  lemma LowStart(x: nat)
    requires 0 < x < U64
    ensures LowState(x, x, 0, 64)
  {
    hide Aligned;
    Pow2Words();
    if Aligned(x, 64) {
      AlignedIsLarge(x, 64);
    }
    assert Aligned(x, 0) by {
      NothingAligned(x);
    }
  }

  lemma NothingAligned(x: nat)
    ensures Aligned(x, 0)
  {
  }

  /** One step, with the mask for `w` bits. */
  lemma LowStep(x0: nat, x: nat, k: int, w: nat, c: nat)
    requires LowState(x0, x, k, w + w) && c == Pow2(w)
    ensures if Mask(x, c) == 0 then LowState(x0, Right(x, c), k + w, w) else LowState(x0, x, k, w)
  {
    hide Aligned, ShiftRight, Pow2;
    AlignedIsDivisible(x, w);
    ShiftsAreProducts(x, w);
    AlignedSum(x, w, w);
    AlignedSum(x0, k, w);
    ShiftRightSum(x0, k, w);
  }

  lemma LowEnd(x0: nat, x: nat, k: int)
    requires x0 < U64 && LowState(x0, x, k, 1)
    ensures 0 <= k < 64 && LowestBit(x0, k)
  {
    AlignedSum(x0, k, 1);
    Pow2Words();
    AlignedIsLarge(x0, k);
    if k >= 64 {
      Pow2Monotone(64, k);
    }
  }

  lemma {:induction false} AlignedIsLarge(x: nat, l: nat)
    requires 0 < x && Aligned(x, l)
    ensures x >= Pow2(l)
  {
    if l > 0 {
      AlignedIsLarge(x / 2, l - 1);
    }
  }

  /** `lsb` of numeric/src/lib.rs: one more than the lowest set bit. */
  method Lsb(x0: nat) returns (r: nat)
    requires x0 < U64
    ensures x0 == 0 ==> r == 0xffff_ffff
    ensures x0 != 0 ==> 1 <= r <= 64 && LowestBit(x0, r - 1)
  {
    hide Mask, Right, LowState, LowestBit, Pow2;
    if x0 == 0 {
      return 0xffff_ffff;
    }
    var x := x0;
    SearchWords();
    LowStart(x0);
    r := 1;
    LowStep(x0, x, r - 1, 32, 0x1_0000_0000);
    if Mask(x, 0x1_0000_0000) == 0 {
      x := Right(x, 0x1_0000_0000);
      r := r + 32;
    }
    LowStep(x0, x, r - 1, 16, 0x1_0000);
    if Mask(x, 0x1_0000) == 0 {
      x := Right(x, 0x1_0000);
      r := r + 16;
    }
    LowStep(x0, x, r - 1, 8, 0x100);
    if Mask(x, 0x100) == 0 {
      x := Right(x, 0x100);
      r := r + 8;
    }
    LowStep(x0, x, r - 1, 4, 0x10);
    if Mask(x, 0x10) == 0 {
      x := Right(x, 0x10);
      r := r + 4;
    }
    LowStep(x0, x, r - 1, 2, 4);
    if Mask(x, 4) == 0 {
      x := Right(x, 4);
      r := r + 2;
    }
    LowStep(x0, x, r - 1, 1, 2);
    if Mask(x, 2) == 0 {
      r := r + 1;
      LowEnd(x0, Right(x, 2), r - 1);
    } else {
      LowEnd(x0, x, r - 1);
    }
  }

  /** State of the search for the highest bit: nothing of `x0` was cut off on the left and the
    * high `w` bits of what it was shifted to are not all zero. */
  ghost predicate HighState(x0: nat, x: nat, k: int, w: nat)
    requires w <= 64
  {
    k >= 0 && x == ShiftLeft(x0, k) && Pow2(64 - w) <= x < U64
  }

  lemma HighStart(x: nat)
    requires 0 < x < U64
    ensures HighState(x, x, 0, 64)
  {
  }

  /** One step, with the mask for the high `w` bits. */
  lemma HighStep(x0: nat, x: nat, k: int, w: nat, c: nat, top: nat)
    requires w + w <= 64 && c == Pow2(w) && top == Pow2(64 - w) && HighState(x0, x, k, w + w)
    ensures if Right(x, top) == 0 then HighState(x0, Left(x, c), k + w, w) else HighState(x0, x, k, w)
  {
    hide ShiftLeft, Pow2;
    Division(x, top);
    if Right(x, top) == 0 {
      ShiftsAreProducts(x, w);
      ShiftLeftSum(x0, k, w);
      HighShifted(x, w);
    } else {
      Multiples(1, x / top, top);
    }
  }

  lemma HighShifted(x: nat, w: nat)
    requires w + w <= 64 && Pow2(64 - w - w) <= x < Pow2(64 - w)
    ensures Pow2(64 - w) <= x * Pow2(w) < U64
  {
    hide Pow2;
    Pow2Words();
    Pow2Sum(64 - w, w);
    Pow2Sum(64 - w - w, w);
    Multiples(Pow2(64 - w - w), x, Pow2(w));
    Multiples(x, Pow2(64 - w), Pow2(w));
  }

  lemma HighEnd(x0: nat, x: nat, k: int)
    requires HighState(x0, x, k, 1) && k < 64
    ensures 0 <= k && HighestBit(x0, 63 - k)
  {
    Pow2Words();
    ShiftLeftPow2(63 - k, k);
    ShiftLeftPow2(64 - k, k);
    ShiftLeftMonotone(x0, Pow2(63 - k), k);
    ShiftLeftMonotone(x0, Pow2(64 - k), k);
  }

  /** `msb` of numeric/src/lib.rs: one more than the highest set bit. */
  method Msb(x0: nat) returns (r: nat)
    requires x0 < U64
    ensures x0 == 0 ==> r == 0
    ensures x0 != 0 ==> 1 <= r <= 64 && HighestBit(x0, r - 1)
  {
    hide Right, Left, HighState, HighestBit, Pow2;
    if x0 == 0 {
      return 0;
    }
    var x := x0;
    SearchWords();
    HighStart(x0);
    r := 64;
    HighStep(x0, x, 64 - r, 32, 0x1_0000_0000, 0x1_0000_0000);
    if Right(x, 0x1_0000_0000) == 0 {
      x := Left(x, 0x1_0000_0000);
      r := r - 32;
    }
    assert r >= 32;
    HighStep(x0, x, 64 - r, 16, 0x1_0000, 0x1_0000_0000_0000);
    if Right(x, 0x1_0000_0000_0000) == 0 {
      x := Left(x, 0x1_0000);
      r := r - 16;
    }
    assert r >= 16;
    HighStep(x0, x, 64 - r, 8, 0x100, 0x100_0000_0000_0000);
    if Right(x, 0x100_0000_0000_0000) == 0 {
      x := Left(x, 0x100);
      r := r - 8;
    }
    assert r >= 8;
    HighStep(x0, x, 64 - r, 4, 0x10, 0x1000_0000_0000_0000);
    if Right(x, 0x1000_0000_0000_0000) == 0 {
      x := Left(x, 0x10);
      r := r - 4;
    }
    assert r >= 4;
    HighStep(x0, x, 64 - r, 2, 4, 0x4000_0000_0000_0000);
    if Right(x, 0x4000_0000_0000_0000) == 0 {
      x := Left(x, 4);
      r := r - 2;
    }
    assert r >= 2;
    HighStep(x0, x, 64 - r, 1, 2, 0x8000_0000_0000_0000);
    if Right(x, 0x8000_0000_0000_0000) == 0 {
      r := r - 1;
      HighEnd(x0, Left(x, 2), 64 - r);
    } else {
      HighEnd(x0, x, 64 - r);
    }
  }

  /** `ilog2`: the source asserts that the argument is not zero. */
  method Ilog2(x: nat) returns (k: nat)
    requires 0 < x < U64
    ensures k < 64 && HighestBit(x, k)
  {
    var r := Msb(x);
    k := r - 1;
  }

  /** `common::LeastSignificantBit`. */
  method LeastSignificantBit(x0: nat) returns (lsb: nat)
    requires x0 < U64
    ensures x0 == 0 ==> lsb == 64
    ensures x0 != 0 ==> lsb < 64 && LowestBit(x0, lsb)
  {
    hide Mask, Right, LowState, LowestBit, Pow2;
    if x0 == 0 {
      return 64;
    }
    var x := x0;
    SearchWords();
    LowStart(x0);
    lsb := 0;
    LowStep(x0, x, lsb, 32, 0x1_0000_0000);
    if Mask(x, 0x1_0000_0000) == 0 {
      lsb := lsb + 32;
      x := Right(x, 0x1_0000_0000);
    }
    LowStep(x0, x, lsb, 16, 0x1_0000);
    if Mask(x, 0x1_0000) == 0 {
      lsb := lsb + 16;
      x := Right(x, 0x1_0000);
    }
    LowStep(x0, x, lsb, 8, 0x100);
    if Mask(x, 0x100) == 0 {
      lsb := lsb + 8;
      x := Right(x, 0x100);
    }
    LowStep(x0, x, lsb, 4, 0x10);
    if Mask(x, 0x10) == 0 {
      lsb := lsb + 4;
      x := Right(x, 0x10);
    }
    LowStep(x0, x, lsb, 2, 4);
    if Mask(x, 4) == 0 {
      lsb := lsb + 2;
      x := Right(x, 4);
    }
    LowStep(x0, x, lsb, 1, 2);
    if Mask(x, 2) == 0 {
      lsb := lsb + 1;
      x := Right(x, 2);
    }
    LowEnd(x0, x, lsb);
  }

  /** State of the C++ search for the highest bit: what is left of `x0` is in the low `w` bits. */
  ghost predicate ShiftState(x0: nat, x: nat, k: int, w: nat) {
    k >= 0 && x == ShiftRight(x0, k) && 0 < x < Pow2(w)
  }

  lemma ShiftStart(x: nat)
    requires 0 < x < U64
    ensures ShiftState(x, x, 0, 64)
  {
    Pow2Words();
  }

  lemma ShiftStep(x0: nat, x: nat, k: int, w: nat, c: nat)
    requires ShiftState(x0, x, k, w + w) && c == Pow2(w)
    ensures if Right(x, c) != 0 then ShiftState(x0, Right(x, c), k + w, w) else ShiftState(x0, x, k, w)
  {
    hide ShiftRight, Pow2;
    Division(x, c);
    ShiftsAreProducts(x, w);
    ShiftRightSum(x0, k, w);
    Pow2Sum(w, w);
    Multiples(c, x / c, c);
  }

  lemma ShiftEnd(x0: nat, x: nat, k: int)
    requires x0 < U64 && ShiftState(x0, x, k, 1)
    ensures 0 <= k < 64 && HighestBit(x0, k)
  {
    hide Pow2, ShiftRight;
    Pow2Small();
    ShiftRightBounds(x0, k);
    Pow2Words();
    if k >= 64 {
      Pow2Monotone(64, k);
    }
  }

  /** `common::MostSignificantBit`: -1 for zero. */
  method MostSignificantBit(x0: nat) returns (msb: int)
    requires x0 < U64
    ensures x0 == 0 ==> msb == -1
    ensures x0 != 0 ==> 0 <= msb < 64 && HighestBit(x0, msb)
  {
    hide Right, ShiftState, HighestBit, Pow2;
    if x0 == 0 {
      return -1;
    }
    var x := x0;
    SearchWords();
    ShiftStart(x0);
    msb := 0;
    ShiftStep(x0, x, msb, 32, 0x1_0000_0000);
    if Right(x, 0x1_0000_0000) != 0 {
      msb := msb + 32;
      x := Right(x, 0x1_0000_0000);
    }
    ShiftStep(x0, x, msb, 16, 0x1_0000);
    if Right(x, 0x1_0000) != 0 {
      msb := msb + 16;
      x := Right(x, 0x1_0000);
    }
    ShiftStep(x0, x, msb, 8, 0x100);
    if Right(x, 0x100) != 0 {
      msb := msb + 8;
      x := Right(x, 0x100);
    }
    ShiftStep(x0, x, msb, 4, 0x10);
    if Right(x, 0x10) != 0 {
      msb := msb + 4;
      x := Right(x, 0x10);
    }
    ShiftStep(x0, x, msb, 2, 4);
    if Right(x, 4) != 0 {
      msb := msb + 2;
      x := Right(x, 4);
    }
    ShiftStep(x0, x, msb, 1, 2);
    if Right(x, 2) != 0 {
      msb := msb + 1;
      x := Right(x, 2);
    }
    ShiftEnd(x0, x, msb);
  }

  // ----- masks that need not be powers of two

  /** `x & !m`. */
  function AndNot(x: nat, m: nat): nat {
    if x == 0 then 0 else 2 * AndNot(x / 2, m / 2) + if x % 2 == 1 && m % 2 == 0 then 1 else 0
  }

  lemma {:induction false} AndNotBounds(x: nat, m: nat)
    ensures AndNot(x, m) <= x <= AndNot(x, m) + m
  {
    if x > 0 {
      AndNotBounds(x / 2, m / 2);
    }
  }

  lemma AndNotHalf(x: nat, m: nat)
    ensures AndNot(x, 2 * m + 1) == 2 * AndNot(x / 2, m)
  {
    assert (2 * m + 1) / 2 == m && (2 * m + 1) % 2 == 1;
    if x == 0 {
      assert AndNot(x / 2, m) == 0;
    }
  }

  /** `x & !(a - 1)` has at least as many low zero bits as `a`. */
  lemma {:induction false} AndNotAligned(x: nat, a: nat, k: nat)
    requires a > 0 && Aligned(a, k)
    ensures Aligned(AndNot(x, a - 1), k)
  {
    if x == 0 {
      ZeroAligned(k);
    } else if k > 0 {
      var y := AndNot(x / 2, a / 2 - 1);
      AndNotHalf(x, a / 2 - 1);
      assert a - 1 == 2 * (a / 2 - 1) + 1;
      AndNotAligned(x / 2, a / 2, k - 1);
      assert (2 * y) / 2 == y;
    }
  }

  lemma {:induction false} ZeroAligned(k: nat)
    ensures Aligned(0, k)
  {
    if k > 0 {
      ZeroAligned(k - 1);
    }
  }

  /** For a power of two the mask of the source rounds down. */
  lemma MaskRoundsDown(x: nat, align: nat)
    requires IsPow2(align)
    ensures AlignDown(x, align) == AndNot(x, align - 1)
  {
    hide Pow2, Aligned;
    var k: nat :| align == Pow2(k);
    AlignedIsDivisible(align, k);
    AlignedIsDivisible(AndNot(x, align - 1), k);
    MultipleOf(1, align);
    AndNotBounds(x, align - 1);
    AndNotAligned(x, align, k);
    AlignDownFindsBlock(x, align, AndNot(x, align - 1));
  }

  /** Bits above all those of the mask stay. */
  lemma {:induction false} HighBitsStay(x: nat, m: nat, n: nat, h: nat)
    requires x < Pow2(n) && m < Pow2(n)
    ensures AndNot(x + Pow2(n) * h, m) == AndNot(x, m) + Pow2(n) * h
  {
    if n == 0 {
      NoMask(h);
    } else {
      var y := Pow2(n - 1) * h;
      assert Pow2(n) * h == 2 * y;
      HighBitsStay(x / 2, m / 2, n - 1, h);
      assert (x + 2 * y) / 2 == x / 2 + y && (x + 2 * y) % 2 == x % 2;
    }
  }

  lemma {:induction false} NoMask(x: nat)
    ensures AndNot(x, 0) == x
  {
    if x > 0 {
      NoMask(x / 2);
    }
  }

  /** The lowest set bit of `a` is not in the mask `a - 1`. */
  lemma {:induction false} LowestBitStays(a: nat, k: nat)
    requires a > 0 && LowestBit(a, k)
    ensures AndNot(Pow2(k), a - 1) == Pow2(k)
  {
    if k > 0 {
      assert (a - 1) / 2 == a / 2 - 1 && Pow2(k) / 2 == Pow2(k - 1);
      LowestBitStays(a / 2, k - 1);
    } else {
      assert Aligned(a, 1) <==> a % 2 == 0;
      assert AndNot(0, (a - 1) / 2) == 0;
    }
  }

  lemma {:induction false} HasLowestBit(a: nat) returns (k: nat)
    requires a > 0
    ensures LowestBit(a, k) && a >= Pow2(k)
  {
    if a % 2 == 1 {
      k := 0;
    } else {
      k := HasLowestBit(a / 2);
      k := k + 1;
    }
  }
}
