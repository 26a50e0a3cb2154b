/**
 * The prime field the constraint system works over, kept abstract: a modulus `p`
 * is passed to every operation, and field elements are the integers in [0, p).
 * The chips, circuits and prover are all generic over the modulus; the
 * prover's field, the base field of the Pallas curve, is one whose modulus is
 * wider than u64 (`Wide`), which is all the prover's properties assume of it.
 */
module Field {
  import opened Wrappers

  type U8 = x: int | 0 <= x < 0x100
  type U32 = x: int | 0 <= x < 0x1_0000_0000
  type U64 = x: int | 0 <= x < 0x1_0000_0000_0000_0000

  const MaxU64: int := 0xFFFF_FFFF_FFFF_FFFF

  /** A field modulus; a field has at least the two distinct elements ZERO and ONE. */
  type Modulus = p: int | p > 1 witness 2

  /** The modulus is larger than every u64, so `Fp::from(u64)` is injective (true of the Pasta field). */
  predicate Wide(p: Modulus) { p > MaxU64 }

  predicate Elem(p: Modulus, x: int) { 0 <= x < p }

  ghost predicate IsPrime(p: int) {
    p > 1 && forall d :: 1 < d < p ==> p % d != 0
  }

  /** `Fp::from(v)` for a u64 `v`. */
  function FromU64(p: Modulus, v: U64): (r: int)
    ensures Elem(p, r)
    ensures Wide(p) ==> r == v
  {
    v % p
  }

  function Add(p: Modulus, a: int, b: int): (r: int)
    ensures Elem(p, r)
  {
    (a + b) % p
  }

  function Sub(p: Modulus, a: int, b: int): (r: int)
    ensures Elem(p, r)
  {
    (a - b) % p
  }

  function Mul(p: Modulus, a: int, b: int): (r: int)
    ensures Elem(p, r)
  {
    (a * b) % p
  }

  /** Unary minus: `-a`, which is `p - a` for a nonzero element and 0 for zero. */
  function Neg(p: Modulus, a: int): (r: int)
    ensures Elem(p, r)
  {
    (-a) % p
  }

  // ---------------------------------------------------------------------------
  // Modular arithmetic facts used by the gate proofs.

  lemma ModOfMultiple(p: Modulus, k: int)
    ensures (p * k) % p == 0
  {
    ModUnique(p * k, p, k, 0);
  }

  /** Euclidean division is unique: a quotient and a remainder in [0, p) are THE quotient and remainder. */
  lemma ModUnique(n: int, p: int, d: int, r: int)
    requires 0 <= r < p
    requires n == p * d + r
    ensures n % p == r && n / p == d
  {
    var q, s := n / p, n % p;
    assert n == p * q + s;
    assert p * (q - d) == r - s;
    MulSmall(p, q - d);
  }

  /** The only multiple of p strictly between -p and p is 0. */
  lemma MulSmall(p: int, t: int)
    requires p > 0 && -p < p * t < p
    ensures t == 0
  {
  }

  lemma ModAddMultiple(p: Modulus, k: int, m: int)
    ensures (p * k + m) % p == m % p
  {
    var q, s := m / p, m % p;
    assert p * k + m == p * (k + q) + s;
    ModUnique(p * k + m, p, k + q, s);
  }

  /** Residues preserve differences: a % p - b % p differs from a - b by a multiple of p. */
  lemma ModDiff(p: Modulus, a: int, b: int, c: int)
    ensures (a % p - b % p + c) % p == (a - b + c) % p
  {
    var qa, qb := a / p, b / p;
    assert a % p - b % p + c == p * (qb - qa) + (a - b + c);
    ModAddMultiple(p, qb - qa, a - b + c);
  }

  /** A value strictly between -p and p is divisible by p only if it is 0. */
  lemma SmallModZero(p: Modulus, x: int)
    requires -x < p && x < p
    ensures x % p == 0 <==> x == 0
  {
    if x % p == 0 {
      assert x == p * (x / p);
      MulSmall(p, x / p);
    }
  }

  lemma ModOfElem(p: Modulus, x: int)
    requires Elem(p, x)
    ensures x % p == x
  {
    ModUnique(x, p, 0, x);
  }

  // ---------------------------------------------------------------------------
  // Inversion by the extended Euclidean algorithm.

  /** Returns (g, x, y) with a*x + b*y == g, g the greatest common divisor of a and b. */
  function Egcd(a: nat, b: nat): (r: (nat, int, int))
    decreases b
  {
    if b == 0 then (a, 1, 0)
    else
      var t := Egcd(b, a % b);
      (t.0, t.2, t.1 - (a / b) * t.2)
  }

  lemma {:induction false} EgcdBezout(a: nat, b: nat)
    decreases b
    ensures a * Egcd(a, b).1 + b * Egcd(a, b).2 == Egcd(a, b).0
  {
    if b != 0 {
      EgcdBezout(b, a % b);
      var t := Egcd(b, a % b);
      BezoutStep(a, b, a / b, a % b, t.1, t.2, t.0);
    }
  }

  /** One step of the extended algorithm keeps Bezout's identity. */
  lemma BezoutStep(a: int, b: int, q: int, r: int, x: int, y: int, g: int)
    requires a == b * q + r
    requires b * x + r * y == g
    ensures a * y + b * (x - q * y) == g
  {
    assert a * y == b * q * y + r * y;
    assert b * (x - q * y) == b * x - b * q * y;
  }

  lemma {:induction false} EgcdDivides(a: nat, b: nat)
    requires a > 0 || b > 0
    decreases b
    ensures Egcd(a, b).0 > 0
    ensures a % Egcd(a, b).0 == 0 && b % Egcd(a, b).0 == 0
  {
    if b == 0 {
      ModUnique(a, a, 1, 0);
      ModUnique(0, a, 0, 0);
    } else {
      EgcdDivides(b, a % b);
      var g := Egcd(b, a % b).0;
      DividesCombination(a, b, a / b, a % b, g);
    }
  }

  /** If g divides b and r, it divides b*q + r. */
  lemma DividesCombination(a: int, b: int, q: int, r: int, g: int)
    requires g > 0 && a == b * q + r
    requires b % g == 0 && r % g == 0
    ensures a % g == 0
  {
    var kb, kr := b / g, r / g;
    assert b == g * kb;
    assert r == g * kr;
    assert b * q == g * (kb * q);
    assert a == g * (kb * q + kr);
    ModUnique(a, g, kb * q + kr, 0);
  }

  /** `F::invert`: the multiplicative inverse, or None when none exists (0 in a field). */
  function Invert(p: Modulus, a: int): (r: Option<int>)
    ensures r.Some? ==> Elem(p, r.value) && Mul(p, a, r.value) == 1
  {
    var t := Egcd(a % p, p);
    EgcdBezout(a % p, p);
    if t.0 == 1 then
      var x := t.1 % p;
      InverseCheck(p, a, t.1, t.2);
      Some(x)
    else None
  }

  lemma InverseCheck(p: Modulus, a: int, x: int, y: int)
    requires (a % p) * x + p * y == 1
    ensures (a * (x % p)) % p == 1
  {
    var qa, qx := a / p, x / p;
    assert a == p * qa + a % p;
    assert x == p * qx + x % p;
    var ra, rx := a % p, x % p;
    calc {
      a * rx;
      (p * qa + ra) * rx;
      p * (qa * rx) + ra * rx;
      p * (qa * rx) + ra * (x - p * qx);
      p * (qa * rx) + ra * x - p * (ra * qx);
      p * (qa * rx) + (1 - p * y) - p * (ra * qx);
      p * (qa * rx - y - ra * qx) + 1;
    }
    ModUnique(a * rx, p, qa * rx - y - ra * qx, 1);
  }

  /** In a prime field every nonzero element has an inverse. */
  lemma InvertNonzero(p: Modulus, a: int)
    requires IsPrime(p) && Elem(p, a) && a != 0
    ensures Invert(p, a).Some?
  {
    ModOfElem(p, a);
    EgcdDivides(a, p);
    var g := Egcd(a, p).0;
    assert g <= a by {
      if g > a {
        ModUnique(a, g, 0, a);
      }
    }
  }

  /** Reducing a factor first does not change a product's residue. */
  lemma ModMulLeft(p: Modulus, x: int, y: int)
    ensures ((x % p) * y) % p == (x * y) % p
  {
    var q := x / p;
    assert x * y == p * (q * y) + (x % p) * y by {
      assert x == p * q + x % p;
    }
    ModAddMultiple(p, q * y, (x % p) * y);
  }

  /** `a * b^-1 * b == a`: multiplying back by the divisor recovers the dividend. */
  lemma MulInverseCancels(p: Modulus, a: int, inv: int, b: int)
    requires Elem(p, a) && Mul(p, inv, b) == 1
    ensures Mul(p, Mul(p, a, inv), b) == a
  {
    ModMulLeft(p, a * inv, b);
    var k := (inv * b) / p;
    assert inv * b == p * k + 1;
    assert a * inv * b == p * (a * k) + a;
    ModAddMultiple(p, a * k, a);
    ModOfElem(p, a);
  }

  /** A field element `c` makes `x - c` vanish exactly when it is the residue of `x`. */
  lemma VanishesIff(p: Modulus, x: int, c: int)
    requires Elem(p, c)
    ensures (x - c) % p == 0 <==> c == x % p
  {
    ModDiff(p, x, c, 0);
    ModOfElem(p, c);
    SmallModZero(p, x % p - c);
  }
}
