/**
 Unsigned words as the driver uses them: 16-bit wrap-around, masking with a
 power of two, and the event window test of the split ring.
 */
module Words {

  const U16_SIZE := 0x1_0000
  const U32_SIZE := 0x1_0000_0000
  const DESC_BYTES := 16        // sizeof(struct vring_desc)

  type u8 = x: int | 0 <= x < 0x100
  type u16 = x: int | 0 <= x < 0x1_0000
  type u32 = x: int | 0 <= x < 0x1_0000_0000

  /** The (u16) cast. */
  function Wrap16(x: int): u16 {
    x % 0x1_0000
  }

  /** The cast to unsigned int. */
  function Wrap32(x: int): u32 {
    x % 0x1_0000_0000
  }

  function Pow2(k: nat): (p: nat)
    ensures p >= 1
  {
    if k == 0 then 1 else 2 * Pow2(k - 1)
  }

  ghost predicate IsPow2(n: nat) {
    exists k: nat :: n == Pow2(k)
  }

  /** x & y, bit by bit. */
  function And(x: nat, y: nat): nat
    decreases x
  {
    if x == 0 then 0 else (x % 2) * (y % 2) + 2 * And(x / 2, y / 2)
  }

  /** x & ~y, bit by bit. */
  function AndNot(x: nat, y: nat): nat
    decreases x
  {
    if x == 0 then 0 else (x % 2) * (1 - y % 2) + 2 * AndNot(x / 2, y / 2)
  }

  /** A mask of k low bits keeps the remainder modulo 2^k. */
  lemma {:induction false} AndMask(x: nat, k: nat)
    ensures And(x, Pow2(k) - 1) == x % Pow2(k)
    decreases k
  {
    if k == 0 {
      AndZero(x);
    } else if x != 0 {
      var p := Pow2(k - 1);
      AndOdd(x, p - 1);
      AndMask(x / 2, k - 1);
      HalveModulo(x, p);
    }
  }

  lemma AndOdd(x: nat, h: nat)
    ensures And(x, 2 * h + 1) == x % 2 + 2 * And(x / 2, h)
  {
    assert (2 * h + 1) % 2 == 1 && (2 * h + 1) / 2 == h;
  }

  lemma {:induction false} AndZero(x: nat)
    ensures And(x, 0) == 0
  {
    if x != 0 {
      AndZero(x / 2);
    }
  }

  lemma HalveModulo(x: nat, p: nat)
    requires p >= 1
    ensures x % (2 * p) == x % 2 + 2 * ((x / 2) % p)
  {
    var q := (x / 2) / p;
    assert x == (2 * p) * q + (x % 2 + 2 * ((x / 2) % p));
    ModuloUnique(x, 2 * p, q, x % 2 + 2 * ((x / 2) % p));
  }

  lemma ModuloUnique(x: int, d: int, q: int, r: int)
    requires d >= 1 && 0 <= r < d && x == d * q + r
    ensures x % d == r && x / d == q
  {
    var q' := x / d;
    assert x == d * q' + x % d;
    if q > q' {
      Distribute(d, q, q');
    } else if q < q' {
      Distribute(d, q', q);
    }
  }

  lemma Distribute(d: int, a: int, b: int)
    requires d >= 1 && a > b
    ensures d * a - d * b >= d
  {
    var k := a - b;
    assert d * a == d * b + d * k;
    TimesAtLeast(d, k);
  }

  lemma {:induction false} TimesAtLeast(d: int, k: int)
    requires d >= 0 && k >= 1
    ensures d * k >= d
  {
    if k > 1 {
      TimesAtLeast(d, k - 1);
      assert d * k == d * (k - 1) + d;
    }
  }

  /** Clearing k low bits rounds down to a multiple of 2^k. */
  lemma {:induction false} AndNotMask(x: nat, k: nat)
    ensures AndNot(x, Pow2(k) - 1) == x - x % Pow2(k)
    decreases k
  {
    if k == 0 {
      AndNotZero(x);
    } else if x != 0 {
      var p := Pow2(k - 1);
      assert (Pow2(k) - 1) % 2 == 1 && (Pow2(k) - 1) / 2 == p - 1;
      AndNotMask(x / 2, k - 1);
      HalveModulo(x, p);
    }
  }

  lemma {:induction false} AndNotZero(x: nat)
    ensures AndNot(x, 0) == x
  {
    if x != 0 {
      AndNotZero(x / 2);
    }
  }

  /** A mask of one bit keeps that bit. */
  lemma {:induction false} AndBit(x: nat, k: nat)
    ensures And(x, Pow2(k)) == Pow2(k) * (x / Pow2(k) % 2)
    decreases k
  {
    if k == 0 {
      AndZero(x / 2);
    } else if x != 0 {
      var p := Pow2(k - 1);
      AndBit(x / 2, k - 1);
      HalveTwice(x, p);
      AndEven(x, p);
      DoubleProduct(p, x / (2 * p) % 2);
    }
  }

  lemma AndEven(x: nat, h: nat)
    ensures And(x, 2 * h) == 2 * And(x / 2, h)
  {
    assert (2 * h) % 2 == 0 && (2 * h) / 2 == h;
  }

  lemma DoubleProduct(p: nat, b: nat)
    ensures 2 * (p * b) == (2 * p) * b
  {
  }

  /** Clearing one bit takes away what it stands for. */
  lemma {:induction false} AndNotBit(x: nat, k: nat)
    ensures AndNot(x, Pow2(k)) == x - Pow2(k) * (x / Pow2(k) % 2)
    decreases k
  {
    if k == 0 {
      AndNotZero(x / 2);
    } else if x != 0 {
      var p := Pow2(k - 1);
      AndNotBit(x / 2, k - 1);
      HalveTwice(x, p);
      AndNotEven(x, p);
      WholeFromHalf(x, p, x / (2 * p) % 2);
    }
  }

  lemma AndNotEven(x: nat, h: nat)
    ensures AndNot(x, 2 * h) == x % 2 + 2 * AndNot(x / 2, h)
  {
    assert (2 * h) % 2 == 0 && (2 * h) / 2 == h;
  }

  lemma WholeFromHalf(x: nat, p: nat, b: nat)
    ensures x % 2 + 2 * (x / 2 - p * b) == x - (2 * p) * b
  {
    assert (2 * p) * b == 2 * (p * b);
  }

  lemma HalveTwice(x: nat, p: nat)
    requires p >= 1
    ensures x / (2 * p) == (x / 2) / p
    ensures (2 * p) % 2 == 0 && (2 * p) / 2 == p
  {
    HalveModulo(x, p);
    var q := (x / 2) / p;
    ModuloUnique(x, 2 * p, q, x % 2 + 2 * ((x / 2) % p));
  }

  /** The test in vring_new_virtqueue: num & (num - 1), with a 32-bit num. */
  predicate PassesPowerOfTwoTest(num: u32) {
    And(num, Wrap32(num - 1)) == 0
  }

  /** The test lets through exactly the powers of two, and zero. */
  lemma PowerOfTwoTestExact(num: u32)
    ensures PassesPowerOfTwoTest(num) <==> num == 0 || IsPow2(num)
  {
    if num != 0 {
      LowestBitTest(num);
    }
  }

  lemma {:induction false} LowestBitTest(n: nat)
    requires n >= 1
    ensures And(n, n - 1) == 0 <==> IsPow2(n)
  {
    if n == 1 {
      assert n == Pow2(0);
    } else if n % 2 == 1 {
      OddKeepsBit(n);
    } else {
      var h := n / 2;
      assert (n - 1) / 2 == h - 1 && (n - 1) % 2 == 1;
      AndOdd(n, h - 1);
      LowestBitTest(h);
      if IsPow2(h) {
        var k: nat :| h == Pow2(k);
        assert n == Pow2(k + 1);
      }
      if IsPow2(n) {
        var k: nat :| n == Pow2(k);
        assert h == Pow2(k - 1);
      }
    }
  }

  /** The bit above the low bit of an odd number survives. */
  lemma OddKeepsBit(n: nat)
    requires n > 1 && n % 2 == 1
    ensures And(n, n - 1) != 0 && !IsPow2(n)
  {
    var h := n / 2;
    assert (n - 1) / 2 == h;
    AndSelf(h);
    forall k: nat ensures n != Pow2(k) {
      if k > 0 {
        assert Pow2(k) % 2 == 0;
      }
    }
  }

  lemma {:induction false} AndSelf(x: nat)
    ensures And(x, x) == x
  {
    if x != 0 {
      AndSelf(x / 2);
      assert (x % 2) * (x % 2) == x % 2 by {
        assert x % 2 == 0 || x % 2 == 1;
      }
    }
  }

  /** Powers of two no larger than 2^16 divide 2^16. */
  lemma {:induction false} Pow2Divides(k: nat, m: nat)
    requires k <= m
    ensures Pow2(m) % Pow2(k) == 0
    decreases m
  {
    if k == m {
      ModuloUnique(Pow2(m), Pow2(k), 1, 0);
    } else {
      Pow2Divides(k, m - 1);
      var q := Pow2(m - 1) / Pow2(k);
      assert Pow2(m) == Pow2(k) * (2 * q);
      ModuloUnique(Pow2(m), Pow2(k), 2 * q, 0);
    }
  }

  lemma Pow2Sixteen()
    ensures Pow2(16) == 0x1_0000
  {
    assert Pow2(4) == 16;
    assert Pow2(8) == 256;
    assert Pow2(12) == 4096;
  }

  lemma {:induction false} Pow2Monotone(j: nat, k: nat)
    requires j < k
    ensures Pow2(j) < Pow2(k)
  {
    if j < k - 1 {
      Pow2Monotone(j, k - 1);
    }
  }

  /** A power of two of 16 bits is at most 32768. */
  lemma Pow2Below(n: u16)
    requires IsPow2(n)
    ensures n <= 0x8000
  {
    var k: nat :| n == Pow2(k);
    Pow2Sixteen();
    assert Pow2(16) == 2 * Pow2(15);
    if k > 15 {
      if k > 16 {
        Pow2Monotone(16, k);
      }
      assert false;
    } else if k < 15 {
      Pow2Monotone(k, 15);
    }
  }

  /** Sizes a split ring may have: powers of two up to 32768. */
  ghost predicate RingSize(num: nat) {
    1 <= num <= 0x8000 && IsPow2(num)
  }

  /**
   A ring slot computed from a 16-bit index by masking is the unbounded
   counter modulo the ring size, across every wrap of the index.
   */
  lemma SlotOfCounter(c: nat, num: nat)
    requires RingSize(num)
    ensures 0 <= c % num < num
    ensures And(Wrap16(c), num - 1) == c % num == Wrap16(c) % num
  {
    var k: nat :| num == Pow2(k);
    Pow2Sixteen();
    if k > 16 {
      Pow2Monotone(16, k);
    }
    Pow2Divides(k, 16);
    AndMask(Wrap16(c), k);
    ModuloOfModulo(c, 0x1_0000, num);
  }

  /** (c % m) % d == c % d when d divides m. */
  lemma ModuloOfModulo(c: nat, m: nat, d: nat)
    requires d >= 1 && m >= 1 && m % d == 0
    ensures (c % m) % d == c % d
  {
    var e, w, r := m / d, c / m, c % m;
    assert m == d * e;
    calc {
      c;
      m * w + r;
      (d * e) * w + (d * (r / d) + r % d);
      { assert (d * e) * w == d * (e * w); }
      d * (e * w) + d * (r / d) + r % d;
      d * (e * w + r / d) + r % d;
    }
    ModuloUnique(c, d, e * w + r / d, r % d);
  }

  /** vring_need_event. */
  predicate NeedEvent(event: u16, to: u16, from: u16) {
    Wrap16(to - event - 1) < Wrap16(to - from)
  }

  /** Some counter value in [from, to) has this 16-bit index. */
  ghost predicate InWindow(event: u16, from: nat, to: nat) {
    exists c: nat :: from <= c < to && Wrap16(c) == event
  }

  /**
   On 16-bit residues of unbounded counters less than 2^16 apart, the event
   test says exactly whether the event index was passed by this update.
   */
  lemma NeedEventExact(event: u16, from: nat, to: nat)
    requires from <= to < from + U16_SIZE
    ensures NeedEvent(event, Wrap16(to), Wrap16(from)) <==> InWindow(event, from, to)
  {
    hide Wrap16;
    WrapDifference(to, from);
    WrapSmall(to - from);
    WindowBack(event, to);
    var back := Wrap16(to - event - 1);
    if back < to - from {
      WindowHit(event, to);
      assert Wrap16(to - 1 - back) == event;
    }
    if InWindow(event, from, to) {
      var c: nat :| from <= c < to && Wrap16(c) == event;
      WindowUnique(event, c, to);
    }
  }

  lemma WindowBack(event: u16, to: nat)
    ensures Wrap16(Wrap16(to) - event - 1) == Wrap16(to - event - 1)
  {
    WrapShift(Wrap16(to) - event - 1, to / U16_SIZE);
  }

  /** Going back from `to` by the 16-bit distance reaches an index equal to the event. */
  lemma WindowHit(event: u16, to: nat)
    ensures Wrap16(to - 1 - Wrap16(to - event - 1)) == event
  {
    var d := to - event - 1;
    assert to - 1 - Wrap16(d) == event + U16_SIZE * (d / U16_SIZE);
    WrapShift(event, d / U16_SIZE);
    WrapSmall(event);
  }

  lemma WindowUnique(event: u16, c: nat, to: nat)
    requires c < to < c + U16_SIZE + 1 && Wrap16(c) == event
    ensures Wrap16(to - event - 1) == to - c - 1
  {
    var d := to - c - 1;
    assert to - event - 1 == d + U16_SIZE * (c / U16_SIZE);
    WrapShift(d, c / U16_SIZE);
    WrapSmall(d);
  }

  lemma WrapSmall32(x: u32)
    ensures Wrap32(x) == x
  {
  }

  lemma WrapSmall(x: u16)
    ensures Wrap16(x) == x
  {
  }

  lemma WrapShift(x: int, k: int)
    ensures Wrap16(x + U16_SIZE * k) == Wrap16(x)
  {
    ModuloUnique(x + U16_SIZE * k, U16_SIZE, x / U16_SIZE + k, x % U16_SIZE);
  }

  /** Incrementing a 16-bit index follows the counter. */
  lemma WrapNext(c: int)
    ensures Wrap16(Wrap16(c) + 1) == Wrap16(c + 1)
  {
    WrapShift(Wrap16(c) + 1, c / U16_SIZE);
  }

  lemma WrapPrevious(c: int)
    ensures Wrap16(Wrap16(c) - 1) == Wrap16(c - 1)
  {
    WrapShift(Wrap16(c) - 1, c / U16_SIZE);
  }

  lemma WrapAdd(c: int, d: int)
    ensures Wrap16(Wrap16(c) + d) == Wrap16(c + d)
  {
    WrapShift(Wrap16(c) + d, c / U16_SIZE);
  }

  /** Differences of 16-bit indices are differences of the counters. */
  lemma WrapDifference(a: int, b: int)
    ensures Wrap16(Wrap16(a) - Wrap16(b)) == Wrap16(a - b)
  {
    WrapShift(Wrap16(a) - Wrap16(b), a / U16_SIZE - b / U16_SIZE);
  }

  /** Less than 2^16 apart, counters are equal when their indices are. */
  lemma SameIndex(a: nat, b: nat)
    requires a <= b < a + U16_SIZE
    ensures Wrap16(a) == Wrap16(b) <==> a == b
    ensures Wrap16(Wrap16(b) - Wrap16(a)) == b - a
  {
    WrapDifference(b, a);
    WrapSmall(b - a);
  }

  /** A window of 2^16 entries is missed altogether. */
  lemma FullWindowIsMissed(event: u16, from: nat)
    ensures !NeedEvent(event, Wrap16(from + U16_SIZE), Wrap16(from))
    ensures InWindow(event, from, from + U16_SIZE)
  {
    var c: nat := from + Wrap16(event - from);
    assert Wrap16(c) == event;
  }
}
