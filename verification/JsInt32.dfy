/** ECMAScript's bitwise operators on Numbers: operands go through ToInt32 / ToUint32, results are
    signed except for `>>>`, and shift counts are taken modulo 32. */
module JsInt32 {

  const TWO_31: int := 0x8000_0000
  const TWO_32: int := 0x1_0000_0000

  function Pow2(k: nat): (r: nat)
    ensures r > 0
  {
    if k == 0 then 1 else 2 * Pow2(k - 1)
  }

  function ToUint32(x: int): (r: nat)
    ensures r < TWO_32
  {
    x % TWO_32
  }

  function ToInt32(x: int): (r: int)
    ensures -TWO_31 <= r < TWO_31
  {
    var u := ToUint32(x);
    if u < TWO_31 then u else u - TWO_32
  }

  /** Bit by bit, on naturals. */
  function BitAnd(a: nat, b: nat): nat {
    if a == 0 || b == 0 then 0 else 2 * BitAnd(a / 2, b / 2) + (a % 2) * (b % 2)
  }

  function BitOr(a: nat, b: nat): nat {
    if a == 0 then b else if b == 0 then a
    else 2 * BitOr(a / 2, b / 2) + (if a % 2 == 1 || b % 2 == 1 then 1 else 0)
  }

  /** a & b */
  function And(a: int, b: int): int {
    ToInt32(BitAnd(ToUint32(a), ToUint32(b)))
  }

  /** a | b */
  function Or(a: int, b: int): int {
    ToInt32(BitOr(ToUint32(a), ToUint32(b)))
  }

  /** a << n */
  function Shl(a: int, n: int): int {
    ToInt32(ToUint32(a) * Pow2(n % 32))
  }

  /** a >>> n */
  function Ushr(a: int, n: int): nat {
    Quotient(ToUint32(a), Pow2(n % 32))
  }

  function Quotient(x: nat, d: nat): nat
    requires d > 0
  {
    x / d
  }

  lemma {:induction false} Pow2Adds(i: nat, j: nat)
    ensures Pow2(i + j) == Pow2(i) * Pow2(j)
  {
    if i > 0 {
      Pow2Adds(i - 1, j);
    }
  }

  lemma Pow2Values()
    ensures Pow2(8) == 0x100 && Pow2(16) == 0x1_0000 && Pow2(24) == 0x100_0000 && Pow2(32) == TWO_32
  {
    assert Pow2(4) == 16;
    Pow2Adds(4, 4);
    Pow2Adds(8, 8);
    Pow2Adds(8, 16);
    Pow2Adds(16, 16);
  }

  /** Converting to signed loses nothing. */
  lemma ToUint32OfToInt32(x: int)
    ensures ToUint32(ToInt32(x)) == ToUint32(x)
  {
    var u := ToUint32(x);
    if u >= TWO_31 {
      assert (u - TWO_32) % TWO_32 == u;
    }
  }

  lemma AndBits(a: int, b: int)
    ensures ToUint32(And(a, b)) == ToUint32(BitAnd(ToUint32(a), ToUint32(b)))
  {
    ToUint32OfToInt32(BitAnd(ToUint32(a), ToUint32(b)));
  }

  lemma OrBits(a: int, b: int)
    ensures ToUint32(Or(a, b)) == ToUint32(BitOr(ToUint32(a), ToUint32(b)))
  {
    ToUint32OfToInt32(BitOr(ToUint32(a), ToUint32(b)));
  }

  lemma SmallIsItself(x: nat)
    requires x < TWO_32
    ensures ToUint32(x) == x
  {
  }

  /** `x >>> 0` */
  lemma UnsignedRepair(x: int)
    ensures Ushr(x, 0) == ToUint32(x)
  {
    assert Pow2(0) == 1;
  }

  /** A signed comparison of two results is a comparison of the bits. */
  lemma ToInt32Injective(x: int, y: int)
    ensures ToInt32(x) == ToInt32(y) <==> ToUint32(x) == ToUint32(y)
  {
    ToUint32OfToInt32(x);
    ToUint32OfToInt32(y);
  }

  lemma {:induction false} Pow2Monotone(k: nat, n: nat)
    requires k <= n
    ensures Pow2(k) <= Pow2(n)
  {
    if k < n {
      Pow2Monotone(k, n - 1);
    }
  }

  /** Masking n bits with "ones above, k zeros below" clears the low k bits. */
  lemma {:induction false} AndWithMask(x: nat, k: nat, n: nat)
    requires k <= n && x < Pow2(n)
    ensures Pow2(k) <= Pow2(n)
    ensures BitAnd(x, Pow2(n) - Pow2(k)) == x - x % Pow2(k)
    decreases n
  {
    Pow2Monotone(k, n);
    var m := Pow2(n) - Pow2(k);
    if k > 0 {
      var m' := Pow2(n - 1) - Pow2(k - 1);
      AndWithMask(x / 2, k - 1, n - 1);
      BitAndUnfold(x, m, x / 2, m', 0);
      ModTwice(x, Pow2(k - 1));
    } else if n > 0 {
      AndWithMask(x / 2, 0, n - 1);
      BitAndUnfold(x, m, x / 2, Pow2(n - 1) - 1, 1);
    }
  }

  /** One bit of a conjunction. */
  lemma BitAndUnfold(a: nat, b: nat, a': nat, b': nat, bit: nat)
    requires a' == a / 2 && b == 2 * b' + bit && bit < 2
    ensures BitAnd(a, b) == 2 * BitAnd(a', b') + (a % 2) * bit
  {
  }

  lemma QuotientIs(x: nat, d: nat, q: nat, r: nat)
    requires d > 0 && r < d && x == q * d + r
    ensures x / d == q && x % d == r
  {
    var q' := x / d;
    assert x == q' * d + x % d;
    assert (q' - q) * d == r - x % d;
    if q' > q {
      MulAtLeast(q' - q, d);
    } else if q' < q {
      assert (q - q') * d == x % d - r;
      MulAtLeast(q - q', d);
    }
  }

  lemma MulAtLeast(n: nat, d: nat)
    requires n > 0
    ensures n * d >= d
  {
  }

  lemma ModTwice(x: nat, p: nat)
    requires p > 0
    ensures x % (2 * p) == 2 * (x / 2 % p) + x % 2
  {
    var q, r := x / 2 / p, x / 2 % p;
    assert x / 2 == q * p + r;
    assert x == q * (2 * p) + (2 * r + x % 2);
    QuotientIs(x, 2 * p, q, 2 * r + x % 2);
  }

  /** Or-ing in a value that fits entirely in the k low zero bits is adding it. */
  lemma {:induction false} OrIsAddition(high: nat, low: nat, k: nat)
    requires low < Pow2(k)
    ensures BitOr(high * Pow2(k), low) == high * Pow2(k) + low
  {
    var a := high * Pow2(k);
    if k > 0 && a != 0 && low != 0 {
      var p := Pow2(k - 1);
      assert a == 2 * (high * p);
      OrIsAddition(high, low / 2, k - 1);
    }
  }
}
