/** Low-S normalisation of ECDSA signatures. Group elements are modelled by their
    scalars modulo the curve order, with an x-coordinate that a point shares with
    its negative. */
module LowS {
  import opened Wrappers

  // ----- the four supported curves (orders from FIPS 186-4, appendix D.1.2)

  const P224_N: nat := 0xffffffffffffffffffffffffffff16a2e0b8f03e13dd29455c5c2a3d
  const P256_N: nat := 0xffffffff00000000ffffffffffffffffbce6faada7179e84f3b9cac2fc632551
  const P384_N: nat := 0xffffffffffffffffffffffffffffffffffffffffffffffffc7634d81f4372ddf581a0db248b0a77aecec196accc52973
  const P521_N: nat := 0x01fffffffffffffffffffffffffffffffffffffffffffffffffffffffffffffffffa51868783bf2f966b7fcc0148f709a5d03bb5c9b8899c47aebb6fb71e91386409

  datatype Curve = P224 | P256 | P384 | P521 | OtherCurve(n: nat)

  function Order(c: Curve): nat {
    match c
    case P224 => P224_N
    case P256 => P256_N
    case P384 => P384_N
    case P521 => P521_N
    case OtherCurve(n) => n
  }

  /** The curveHalfOrders table: the order shifted right by one bit. */
  function HalfOrder(c: Curve): Option<nat> {
    if c.OtherCurve? then None else Some(Order(c) / 2)
  }

  datatype CurveError = NotSupported

  lemma SupportedOrdersAreOdd(c: Curve)
    requires HalfOrder(c).Some?
    ensures Order(c) % 2 == 1 && Order(c) > 2
  {
  }

  /** The orders in decimal, as section D.1.2 of FIPS 186-4 prints them. */
  lemma OrdersInDecimal()
    ensures Order(P224) == 26959946667150639794667015087019625940457807714424391721682722368061
    ensures Order(P256) == 115792089210356248762697446949407573529996955224135760342422259061068512044369
    ensures Order(P384)
      == 3940200619639447921227904010014361380507973927046544666794
         * 10000000000000000000000000000000000000000000000000000000000
         + 6905279627659399113263569398956308152294913554433653942643
    ensures Order(P521)
      == 6864797660130609714981900799081393217269435300143305409394463459185543183397655
         * 1000000000000000000000000000000000000000000000000000000000000000000000000000000
         + 394245057746333217197532963996371363321113864768612440380340372808892707005449
  {
  }

  // ----- the code

  /** A big.Int: ToLowS overwrites the one it is given. */
  class BigInt {
    var v: int

    constructor (x: int)
      ensures v == x
    {
      v := x;
    }
  }

  function LowS(n: nat, s: int): int { if s <= n / 2 then s else n - s }

  /** Low means that normalising changes nothing; of a number and its mirror image
      modulo the order exactly one is low. */
  method IsLowS(c: Curve, s: BigInt) returns (r: Result<bool, CurveError>)
    ensures if HalfOrder(c).None? then r == Failure(NotSupported) else r.Success?
    ensures r.Success? ==> (r.value <==> LowS(Order(c), s.v) == s.v)
    ensures r.Success? ==> (r.value <==> LowS(Order(c), Order(c) - s.v) != Order(c) - s.v)
  {
    var halfOrder := HalfOrder(c);
    if halfOrder.None? {
      return Failure(NotSupported);
    }
    SupportedOrdersAreOdd(c);
    return Success(s.v <= halfOrder.value);
  }

  /** Returns whether the number was changed; the number itself changes in place. */
  method ToLowS(c: Curve, s: BigInt) returns (r: Result<bool, CurveError>)
    modifies s
    ensures HalfOrder(c).None? ==> r == Failure(NotSupported) && s.v == old(s.v)
    ensures HalfOrder(c).Some? ==> s.v == LowS(Order(c), old(s.v)) && r == Success(s.v != old(s.v))
  {
    var lowS := IsLowS(c, s);
    if lowS.Failure? {
      return Failure(lowS.error);
    }
    if !lowS.value {
      s.v := Order(c) - s.v;
      return Success(true);
    }
    return Success(false);
  }

  // ----- canonicity

  /** Each pair {s, n-s} has one representative in 1..n/2 and LowS picks it. */
  lemma LowSIsCanonical(n: nat, s: int, t: int)
    requires n % 2 == 1 && 1 <= s < n && 1 <= t < n
    ensures 1 <= LowS(n, s) <= n / 2
    ensures LowS(n, LowS(n, s)) == LowS(n, s)
    ensures LowS(n, s) == LowS(n, t) <==> t == s || t == n - s
    ensures LowS(n, s) == t <==> (t == s || t == n - s) && t <= n / 2
  {
  }

  // ----- validity

  /** A group of order `n` with generator 1, points written as scalars. */
  datatype Group = Group(n: nat, xOf: int -> int)

  ghost predicate Law(g: Group) {
    g.n > 1 && forall k :: 0 < k < g.n ==> g.xOf(k) == g.xOf(g.n - k)
  }

  /** The point u1*G + u2*Q of the verification, for the inverse `w` of s. */
  function Point(g: Group, d: int, e: int, r: int, w: int): int
    requires g.n > 0
  {
    (e * w + r * w * d) % g.n
  }

  predicate Accepts(g: Group, d: int, e: int, r: int, s: int, w: int)
    requires g.n > 0
  {
    var k := Point(g, d, e, r, w);
    (s * w) % g.n == 1 && k != 0 && g.xOf(k) % g.n == r
  }

  /** Section 4.1.4 of SEC 1, version 2.0, for the public key d*G and hash `e`. */
  ghost predicate Verifies(g: Group, d: int, e: int, r: int, s: int)
    requires g.n > 0
  {
    1 <= r < g.n && 1 <= s < g.n && exists w :: 0 < w < g.n && Accepts(g, d, e, r, s, w)
  }

  lemma MultipleBound(k: int, n: nat)
    ensures k >= 1 ==> k * n >= n
    ensures k <= -1 ==> k * n <= 0 - n
  {
  }

  lemma DivModUnique(x: int, q: int, t: int, n: nat)
    requires n > 0 && x == q * n + t && 0 <= t < n
    ensures x % n == t
  {
    var q', t' := x / n, x % n;
    assert (q - q') * n == t' - t;
    MultipleBound(q - q', n);
  }

  lemma ModPlusMultiple(x: int, m: int, n: nat)
    requires n > 0
    ensures (x + m * n) % n == x % n
  {
    var q, t := x / n, x % n;
    assert x + m * n == (q + m) * n + t;
    DivModUnique(x + m * n, q + m, t, n);
  }

  lemma NegatedRemainder(x: int, n: nat)
    requires n > 0
    ensures (-x) % n == if x % n == 0 then 0 else n - x % n
  {
    var q, t := x / n, x % n;
    assert x == q * n + t;
    if t == 0 {
      assert -x == (-q) * n + 0;
      DivModUnique(-x, -q, 0, n);
    } else {
      assert -x == (-q - 1) * n + (n - t);
      DivModUnique(-x, -q - 1, n - t, n);
    }
  }

  /** Negating both s and its inverse negates the point and keeps the x-coordinate. */
  lemma NegatedInverseAccepts(g: Group, d: int, e: int, r: int, s: int, w: int)
    requires Law(g) && 0 < w < g.n && Accepts(g, d, e, r, s, w)
    ensures Accepts(g, d, e, r, g.n - s, g.n - w)
  {
    var n := g.n;
    var x := e * w + r * w * d;
    NegatedProduct(n, s, w);
    ModPlusMultiple(s * w, n - s - w, n);
    NegatedScalar(n, d, e, r, w);
    ModPlusMultiple(-x, e + r * d, n);
    NegatedRemainder(x, n);
  }

  lemma NegatedProduct(n: int, s: int, w: int)
    ensures (n - s) * (n - w) == s * w + (n - s - w) * n
  {
  }

  lemma NegatedScalar(n: int, d: int, e: int, r: int, w: int)
    ensures e * (n - w) + r * (n - w) * d == -(e * w + r * w * d) + (e + r * d) * n
  {
    assert r * (n - w) * d == r * n * d - r * w * d;
    assert r * n * d == (r * d) * n;
    assert (e + r * d) * n == e * n + (r * d) * n;
  }

  /** A signature verifies exactly when its normalised form does. */
  lemma LowSPreservesValidity(g: Group, d: int, e: int, r: int, s: int)
    requires Law(g) && 1 <= s < g.n
    ensures Verifies(g, d, e, r, LowS(g.n, s)) <==> Verifies(g, d, e, r, s)
  {
    NegationPreservesValidity(g, d, e, r, s);
    NegationPreservesValidity(g, d, e, r, g.n - s);
  }

  lemma NegationPreservesValidity(g: Group, d: int, e: int, r: int, s: int)
    requires Law(g) && 1 <= s < g.n
    ensures Verifies(g, d, e, r, s) ==> Verifies(g, d, e, r, g.n - s)
  {
    if Verifies(g, d, e, r, s) {
      var w :| 0 < w < g.n && Accepts(g, d, e, r, s, w);
      NegatedInverseAccepts(g, d, e, r, s, w);
      assert 0 < g.n - w < g.n && Accepts(g, d, e, r, g.n - s, g.n - w);
    }
  }
}
