/** C's 32-bit integer arithmetic, written out over unbounded integers. */
module Words {

  const TWO_31 := 0x8000_0000
  const TWO_32 := 0x1_0000_0000

  /** The `int` a two's complement machine keeps of x. */
  function Signed(x: int): (r: int)
    ensures -TWO_31 <= r < TWO_31
    ensures (x - r) % TWO_32 == 0
  {
    (x + TWO_31) % TWO_32 - TWO_31
  }

  /** The `unsigned int` kept of x. */
  function Unsigned(x: int): (r: int)
    ensures 0 <= r < TWO_32
    ensures (x - r) % TWO_32 == 0
  {
    x % TWO_32
  }

  /** C's remainder: what a leaves over multiples of b, with the sign of the dividend. */
  function Remainder(a: int, b: int): (r: int)
    requires b > 0
    ensures -b < r < b && (a - r) % b == 0
    ensures a >= 0 ==> r >= 0
    ensures a <= 0 ==> r <= 0
  {
    DropsResidue(a, b);
    DropsResidue(-a, b);
    if a >= 0 then a % b else -((-a) % b)
  }

  lemma DropsResidue(a: int, b: int)
    requires b > 0
    ensures (a - a % b) % b == 0 && (a % b - a) % b == 0
  {
    var q := a / b;
    assert a - a % b == q * b + 0;
    ModUnique(a - a % b, b, q, 0);
    assert a % b - a == (-q) * b + 0;
    ModUnique(a % b - a, b, -q, 0);
  }

  /** Wrapping the inner value early does not change the wrapped result of a hash step. */
  lemma SignedAbsorbs(x: int, b: int)
    ensures Signed(23 * Signed(x) + b) == Signed(23 * x + b)
  {
  }

  /** Adding a multiple of n keeps the residue. */
  lemma {:induction false} ModShift(a: int, k: nat, n: int)
    requires n > 0
    ensures (a + k * n) % n == a % n
    decreases k
  {
    if k == 0 {
    } else {
      ModShift(a, k - 1, n);
      assert a + k * n == (a + (k - 1) * n) + n;
      ModShiftOne(a + (k - 1) * n, n);
    }
  }

  lemma ModShiftOne(a: int, n: int)
    requires n > 0
    ensures (a + n) % n == a % n
  {
    var q, r := a / n, a % n;
    assert a + n == (q + 1) * n + r;
    ModUnique(a + n, n, q + 1, r);
  }

  lemma ModUnique(x: int, n: int, q: int, r: int)
    requires n > 0 && x == q * n + r && 0 <= r < n
    ensures x % n == r
  {
    var d := x / n - q;
    assert d * n == r - x % n;
    if d >= 1 {
      NotBelow(d, n);
    } else if d <= -1 {
      NotBelow(-d, n);
    }
  }

  lemma ProductMonotone(a: nat, b: nat, c: nat, d: nat)
    requires a <= b && c <= d
    ensures a * c <= b * d
  {
  }

  lemma NotBelow(d: int, n: int)
    requires d >= 1 && n > 0
    ensures d * n >= n
  {
  }
}
