/**
  Jacobian arithmetic on a curve y^2 = x^3 + b over the integers modulo p, as the secp256k1 package computes it: with
  reductions at some steps, sign corrections at others.
  */
module Curve {
  import opened Congruence
  import opened Wrappers

  datatype Point = Point(x: int, y: int)

  datatype BitCurve = BitCurve(p: int, b: int)

  /** The field, the constant and the base point of section 2.7.1 of SEC 2. */
  const SECP256K1 := BitCurve(0xFFFFFFFF_FFFFFFFF_FFFFFFFF_FFFFFFFF_FFFFFFFF_FFFFFFFF_FFFFFFFE_FFFFFC2F, 7)
  const BASE_POINT := Point(0x79BE667E_F9DCBBAC_55A06295_CE870B07_029BFCDB_2DCE28D9_59F2815B_16F81798,
                            0x483ADA77_26A3C465_5DA4FBFC_0E1108A8_FD17B448_A6855419_9C47D08F_FB10D4B8)

  /** The product and the remainder of big integers. */
  function Prod(a: int, b: int): int {
    a * b
  }

  function Mod(a: int, p: int): int
    requires p > 0
  {
    a % p
  }

  function Square(a: int): int {
    a * a
  }

  function Cube(a: int): int {
    a * a * a
  }

  /** A Jacobian triple on the curve. */
  ghost predicate OnCurve(c: BitCurve, x: int, y: int, z: int) {
    Cong(c.p, Square(y), Cube(x) + c.b * Square(Cube(z)))
  }

  lemma ModCong(p: int, a: int, b: int)
    requires p > 0 && Cong(p, a, b)
    ensures Cong(p, Mod(a, p), b) && 0 <= Mod(a, p) < p
  {
    Reduced(p, a);
    Transitive(p, a % p, a, b);
  }

  lemma ModSame(p: int, a: int)
    requires p > 0
    ensures Cong(p, Mod(a, p), a) && 0 <= Mod(a, p) < p
  {
    Reduced(p, a);
  }

  lemma ProdCong(p: int, a: int, b: int, c: int, d: int)
    requires Cong(p, a, b) && Cong(p, c, d)
    ensures Cong(p, Prod(a, c), Prod(b, d))
  {
    Mul(p, a, b, c, d);
  }

  // ----- doubling -----

  /** The doubling formulas without reductions. */
  function DoubleX(x: int, y: int): int {
    Square(3 * Square(x)) - 8 * x * Square(y)
  }

  function DoubleY(x: int, y: int): int {
    3 * Square(x) * (4 * x * Square(y) - DoubleX(x, y)) - 8 * Square(Square(y))
  }

  function DoubleZ(y: int, z: int): int {
    2 * y * z
  }

  lemma DoubleD(x: int, b: int)
    ensures Prod(Prod(x + b, x + b) - Prod(x, x) - Prod(b, b), 2) == Prod(4 * x, b)
  {
  }

  lemma DoubleXIs(x: int, y: int)
    ensures Prod(3 * Prod(x, x), 3 * Prod(x, x)) - 2 * Prod(4 * x, Prod(y, y)) == DoubleX(x, y)
  {
  }

  lemma DoubleYIs(x: int, y: int)
    ensures Prod(3 * Prod(x, x), Prod(4 * x, Prod(y, y)) - DoubleX(x, y)) - 8 * Prod(Prod(y, y), Prod(y, y)) == DoubleY(x, y)
  {
    hide DoubleX;
  }

  lemma DoubleZIs(y: int, z: int)
    ensures 2 * Prod(y, z) == DoubleZ(y, z)
  {
  }

  method DoubleJacobian(c: BitCurve, x: int, y: int, z: int) returns (x3: int, y3: int, z3: int)
    requires c.p > 0
    ensures 0 <= x3 < c.p && 0 <= y3 < c.p && 0 <= z3 < c.p
    ensures Cong(c.p, x3, DoubleX(x, y)) && Cong(c.p, y3, DoubleY(x, y)) && Cong(c.p, z3, DoubleZ(y, z))
    ensures OnCurve(c, x, y, z) ==> OnCurve(c, x3, y3, z3)
    ensures forall a, l :: Represents(c, x, y, z, a) && Tangent(c, a, l) ==>
              Represents(c, x3, y3, z3, ThirdPoint(a, a.x, l))
  {
    hide Cong, Prod, Mod, DoubleX, DoubleY, DoubleZ, OnCurve, Represents, Tangent, ThirdPoint;
    var a := Prod(x, x);
    var b := Prod(y, y);
    var b2 := Prod(b, b);

    var d := x + b;
    d := Prod(d, d);
    d := d - a;
    d := d - b2;
    d := Prod(d, 2);
    DoubleD(x, b);

    var e := 3 * a;
    var f := Prod(e, e);

    x3 := 2 * d;
    x3 := f - x3;
    DoubleXIs(x, y);
    ModSame(c.p, x3);
    x3 := Mod(x3, c.p);

    y3 := d - x3;
    Same(c.p, d);
    Minus(c.p, d, d, x3, DoubleX(x, y));
    Same(c.p, e);
    ProdCong(c.p, e, e, y3, d - DoubleX(x, y));
    y3 := Prod(e, y3);
    Same(c.p, 8 * b2);
    Minus(c.p, y3, Prod(e, d - DoubleX(x, y)), 8 * b2, 8 * b2);
    y3 := y3 - 8 * b2;
    DoubleYIs(x, y);
    ModCong(c.p, y3, DoubleY(x, y));
    y3 := Mod(y3, c.p);

    z3 := Prod(y, z);
    z3 := 2 * z3;
    DoubleZIs(y, z);
    ModSame(c.p, z3);
    z3 := Mod(z3, c.p);
    DoubleMeans(c, x, y, z, x3, y3, z3);
  }

  lemma DoubleMeans(c: BitCurve, x: int, y: int, z: int, x3: int, y3: int, z3: int)
    requires Cong(c.p, x3, DoubleX(x, y)) && Cong(c.p, y3, DoubleY(x, y)) && Cong(c.p, z3, DoubleZ(y, z))
    ensures OnCurve(c, x, y, z) ==> OnCurve(c, x3, y3, z3)
    ensures forall a, l :: Represents(c, x, y, z, a) && Tangent(c, a, l) ==>
              Represents(c, x3, y3, z3, ThirdPoint(a, a.x, l))
  {
    hide Cong, DoubleX, DoubleY, DoubleZ, OnCurve, Represents, Tangent, ThirdPoint;
    if OnCurve(c, x, y, z) {
      DoubleOnCurve(c, x, y, z);
      OnCurveCong(c, x3, y3, z3, DoubleX(x, y), DoubleY(x, y), DoubleZ(y, z));
    }
    forall a, l | Represents(c, x, y, z, a) && Tangent(c, a, l)
      ensures Represents(c, x3, y3, z3, ThirdPoint(a, a.x, l))
    {
      TangentLaw(c, x, y, z, a, l);
      RepresentsCong(c, x3, y3, z3, DoubleX(x, y), DoubleY(x, y), DoubleZ(y, z), ThirdPoint(a, a.x, l));
    }
  }

  /** In t = x^3 and b = y^2 the doubling formulas are quadratic. */
  lemma DoubleInCubes(x: int, y: int, t: int, b: int)
    requires t == Cube(x) && b == Square(y)
    ensures DoubleX(x, y) == x * (9 * t - 8 * b)
    ensures DoubleY(x, y) == 36 * (t * b) - 27 * (t * t) - 8 * (b * b)
  {
    var m := 9 * t - 8 * b;
    assert Square(3 * Square(x)) == 9 * (x * t);
    assert 8 * x * b == 8 * (x * b);
    assert DoubleX(x, y) == x * m;
    calc {
      3 * Square(x) * (4 * x * b - x * m);
      3 * (x * x) * (x * (4 * b - m));
      { Regroup(x, 4 * b - m); }
      3 * (t * (4 * b - m));
      3 * (t * (12 * b - 9 * t));
      36 * (t * b) - 27 * (t * t);
    }
  }

  lemma Regroup(x: int, n: int)
    ensures 3 * (x * x) * (x * n) == 3 * (x * x * x * n)
  {
  }

  lemma DoubleIdentity(t2: int, tb: int, b2: int)
    requires t2 * b2 == tb * tb
    ensures Square(36 * tb - 27 * t2 - 8 * b2)
         == (9 * t2 - 8 * tb) * (81 * t2 - 144 * tb + 64 * b2) + 64 * (b2 * b2 - tb * b2)
  {
  }

  lemma CubeProduct(x: int, m: int)
    ensures Cube(x * m) == Cube(x) * Cube(m)
  {
  }

  lemma CubeOfDifference(t: int, b: int)
    ensures t * Cube(9 * t - 8 * b) == (9 * (t * t) - 8 * (t * b)) * (81 * (t * t) - 144 * (t * b) + 64 * (b * b))
  {
    var m := 9 * t - 8 * b;
    assert m * m == 81 * (t * t) - 144 * (t * b) + 64 * (b * b);
    assert t * m == 9 * (t * t) - 8 * (t * b);
    assert t * (m * m * m) == t * m * (m * m);
  }

  /** The exact identity behind doubling: the defect of the result is a multiple of the defect of the argument. */
  lemma DoubleDefect(x: int, y: int)
    ensures var t, b := Cube(x), Square(y);
            Square(DoubleY(x, y)) == Cube(DoubleX(x, y)) + 64 * Cube(b) * (b - t)
  {
    hide DoubleX, DoubleY, Cube, Square;
    var t, b := Cube(x), Square(y);
    DoubleInCubes(x, y, t, b);
    CubeProduct(x, 9 * t - 8 * b);
    CubeOfDifference(t, b);
    SameProducts(t, b);
    DoubleIdentity(t * t, t * b, b * b);
    LastTerm(t, b);
  }

  lemma SameProducts(t: int, b: int)
    ensures t * t * (b * b) == t * b * (t * b)
  {
  }

  lemma LastTerm(t: int, b: int)
    ensures 64 * (b * b * (b * b) - t * b * (b * b)) == 64 * Cube(b) * (b - t)
  {
    assert b * b * (b * b) == b * b * b * b;
    assert t * b * (b * b) == b * b * b * t;
    assert 64 * Cube(b) * (b - t) == 64 * (Cube(b) * b - Cube(b) * t);
  }

  lemma DoubleZPower(y: int, z: int)
    ensures Square(Cube(DoubleZ(y, z))) == 64 * Cube(Square(y)) * Square(Cube(z))
  {
    hide Square, Cube;
    var w := y * z;
    CubeProduct(2, w);
    CubeProduct(y, z);
    SquareOfCube(y);
    Eight(Cube(2), Cube(w), Cube(y), Cube(z));
    assert DoubleZ(y, z) == 2 * w;
  }

  lemma Eight(two: int, w: int, y: int, z: int)
    requires two == 8 && w == y * z
    ensures Square(two * w) == 64 * Square(y) * Square(z)
  {
    assert Square(two * w) == 64 * (w * w);
    assert w * w == y * y * (z * z);
  }

  lemma SquareOfCube(y: int)
    ensures Square(Cube(y)) == Cube(Square(y)) && Cube(2) == 8
  {
  }

  /** The double of a point on the curve is on the curve. */
  lemma DoubleOnCurve(c: BitCurve, x: int, y: int, z: int)
    requires OnCurve(c, x, y, z)
    ensures OnCurve(c, DoubleX(x, y), DoubleY(x, y), DoubleZ(y, z))
  {
    hide DoubleX, DoubleY, DoubleZ, Cube, Square, Cong;
    var t, b, e := Cube(x), Square(y), c.b * Square(Cube(z));
    var k := 64 * Cube(b);
    DoubleDefect(x, y);
    DoubleZPower(y, z);
    Same(c.p, t);
    Minus(c.p, b, t + e, t, t);
    Same(c.p, k);
    Mul(c.p, k, k, b - t, e);
    Same(c.p, Cube(DoubleX(x, y)));
    Plus(c.p, Cube(DoubleX(x, y)), Cube(DoubleX(x, y)), k * (b - t), k * e);
    Reorder(k, c.b, Square(Cube(z)));
  }

  lemma Reorder(k: int, b: int, s: int)
    ensures k * (b * s) == b * (k * s)
  {
  }

  // ----- addition -----

  /** Coordinates of both points over the common denominator z1 * z2. */
  function OverX(x: int, z: int): int {
    x * Square(z)
  }

  function OverY(y: int, z: int): int {
    y * Cube(z)
  }

  /** The addition formulas without reductions, for u1, s1, h = u2 - u1 and r = s2 - s1. */
  function ChordX(u: int, h: int, r: int): int {
    Square(r) - Cube(h) - 2 * u * Square(h)
  }

  function ChordY(u: int, s: int, h: int, r: int): int {
    r * (u * Square(h) - ChordX(u, h, r)) - s * Cube(h)
  }

  function SumX(u: int, h: int, r: int): int {
    4 * ChordX(u, h, r)
  }

  function SumY(u: int, s: int, h: int, r: int): int {
    8 * ChordY(u, s, h, r)
  }

  function SumZ(z1: int, z2: int, h: int): int {
    2 * z1 * z2 * h
  }

  lemma OverXIs(x: int, z: int)
    ensures Prod(x, Prod(z, z)) == OverX(x, z)
  {
  }

  lemma OverYIs(y: int, z: int)
    ensures Prod(Prod(y, z), Prod(z, z)) == OverY(y, z)
  {
  }

  lemma SumXIs(u: int, h: int, r: int)
    ensures var i := Prod(2 * h, 2 * h);
            Prod(2 * r, 2 * r) - Prod(h, i) - Prod(u, i) - Prod(u, i) == SumX(u, h, r)
  {
  }

  lemma SumYIs(u: int, s: int, h: int, r: int)
    ensures var i := Prod(2 * h, 2 * h);
            Prod(2 * r, Prod(u, i) - SumX(u, h, r)) - 2 * Prod(s, Prod(h, i)) == SumY(u, s, h, r)
  {
    hide ChordX;
    var x := ChordX(u, h, r);
    calc {
      2 * r * (u * (2 * h * (2 * h)) - 4 * x) - 2 * (s * (h * (2 * h * (2 * h))));
      8 * (r * (u * (h * h) - x) - s * (h * h * h));
    }
  }

  lemma SumZIs(z1: int, z2: int, h: int)
    ensures Prod(Prod(z1 + z2, z1 + z2) - Prod(z1, z1) - Prod(z2, z2), h) == SumZ(z1, z2, h)
  {
    assert (z1 + z2) * (z1 + z2) - z1 * z1 - z2 * z2 == 2 * z1 * z2;
  }

  /** What the second point's defect exceeds the first's by. */
  function ChordDefect(u: int, s: int, h: int, r: int): int {
    (Square(s + r) - Cube(u + h)) - (Square(s) - Cube(u))
  }

  lemma DefectIs(u: int, s: int, h: int, r: int)
    ensures ChordDefect(u, s, h, r) == 2 * (r * s) + r * r - 3 * (u * u * h) - 3 * (u * (h * h)) - h * h * h
  {
    assert (s + r) * (s + r) == s * s + 2 * (r * s) + r * r;
    var v := u + h;
    assert v * v == u * u + 2 * (u * h) + h * h;
    assert v * v * v == (u * u + 2 * (u * h) + h * h) * u + (u * u + 2 * (u * h) + h * h) * h;
    assert (u * u + 2 * (u * h) + h * h) * u == u * u * u + 2 * (u * u * h) + u * (h * h);
    assert (u * u + 2 * (u * h) + h * h) * h == u * u * h + 2 * (u * (h * h)) + h * h * h;
  }

  /** The defect times h^3, in a = u h^2 and g = h^3. */
  lemma DefectScaled(u: int, s: int, h: int, r: int, a: int, g: int)
    requires a == u * Square(h) && g == Cube(h)
    ensures ChordDefect(u, s, h, r) * g == 2 * (r * s * g) + r * r * g - 3 * (a * a) - 3 * (a * g) - g * g
  {
    DefectIs(u, s, h, r);
    var h2 := h * h;
    assert g == h2 * h;
    var d1, d2, d3, d4, d5 := r * s, r * r, u * u * h, u * h2, g;
    assert ChordDefect(u, s, h, r) == 2 * d1 + d2 - 3 * d3 - 3 * d4 - d5;
    Five(d1, d2, d3, d4, d5, g);
    assert d3 * g == a * a by {
      assert u * u * h * (h2 * h) == u * h2 * (u * h2) by { Squares(u, h, h2); }
    }
  }

  lemma Squares(u: int, h: int, h2: int)
    requires h2 == h * h
    ensures u * u * h * (h2 * h) == u * h2 * (u * h2)
  {
    calc {
      u * u * h * (h2 * h);
      u * u * h2 * (h * h);
      u * u * h2 * h2;
      u * h2 * (u * h2);
    }
  }

  lemma Five(d1: int, d2: int, d3: int, d4: int, d5: int, g: int)
    ensures (2 * d1 + d2 - 3 * d3 - 3 * d4 - d5) * g == 2 * (d1 * g) + d2 * g - 3 * (d3 * g) - 3 * (d4 * g) - d5 * g
  {
  }

  /** The quadratic identity behind addition: here q is r^2 = x + g + 2a and m is 2 r s g. */
  lemma ChordIdentity(a: int, g: int, x: int, q: int, m: int, d: int)
    requires q == x + g + 2 * a
    requires d == m + q * g - 3 * (a * a) - 3 * (a * g) - g * g
    ensures q * (a - x) - m + (x * x + a * x + a * a) == -d
  {
    assert q * (a - x) == x * a - x * x + g * a - g * x + 2 * (a * a) - 2 * (a * x);
    assert q * g == x * g + g * g + 2 * (a * g);
  }

  lemma CubesDiffer(a: int, x: int)
    ensures Cube(x) - Cube(a) == -((a - x) * (x * x + a * x + a * a))
  {
    var k := x * x + a * x + a * a;
    assert (a - x) * k == a * k - x * k;
    assert a * k == a * (x * x) + a * a * x + Cube(a);
    assert x * k == Cube(x) + a * (x * x) + a * a * x;
  }

  lemma ExpandY(r: int, n: int, s: int, g: int)
    ensures Square(r * n - s * g) == r * r * (n * n) - 2 * (r * s * g) * n + s * s * (g * g)
  {
    var p, q := r * n, s * g;
    assert Square(p - q) == p * p - 2 * (p * q) + q * q;
    assert p * p == r * r * (n * n);
    assert q * q == s * s * (g * g);
    assert p * q == r * s * g * n;
    assert 2 * (r * s * g * n) == 2 * (r * s * g) * n;
  }

  function ChordFactor(u: int, h: int, r: int): int {
    -((u * Square(h) - ChordX(u, h, r)) * Cube(h))
  }

  /** The exact identity behind addition: the defect of the result against the first point's. */
  lemma SumDefect(u: int, s: int, h: int, r: int)
    ensures Square(ChordY(u, s, h, r))
         == Cube(ChordX(u, h, r)) + (Square(s) - Cube(u)) * Square(Cube(h))
            + ChordFactor(u, h, r) * ChordDefect(u, s, h, r)
  {
    hide ChordDefect, ChordX;
    var a, g, x := u * Square(h), Cube(h), ChordX(u, h, r);
    var q, m, d := r * r, 2 * (r * s * g), ChordDefect(u, s, h, r) * g;
    var n := a - x;
    DefectScaled(u, s, h, r, a, g);
    assert x == q - g - 2 * a by { ChordXIs(u, h, r); }
    ChordIdentity(a, g, x, q, m, d);
    CubesDiffer(a, x);
    ExpandY(r, n, s, g);
    var k := x * x + a * x + a * a;
    assert Cube(a) == Cube(u) * (g * g) by { CubeOfScaled(u, h); }
    Assemble(q, n, m, k, d, s * s * (g * g));
    assert Square(ChordY(u, s, h, r)) == Cube(x) - Cube(a) + s * s * (g * g) - n * d;
    assert n * d == n * g * ChordDefect(u, s, h, r) by { Associate(n, g, ChordDefect(u, s, h, r)); }
    var e := -(n * g);
    assert (s * s - Cube(u)) * (g * g) == s * s * (g * g) - Cube(u) * (g * g);
    assert -(n * g * ChordDefect(u, s, h, r)) == e * ChordDefect(u, s, h, r);
    assert Square(ChordY(u, s, h, r))
        == Cube(x) + (Square(s) - Cube(u)) * Square(g) + e * ChordDefect(u, s, h, r);
  }

  lemma Associate(a: int, b: int, c: int)
    ensures a * b * c == a * (b * c)
  {
  }

  lemma ChordXIs(u: int, h: int, r: int)
    ensures ChordX(u, h, r) == Square(r) - Cube(h) - 2 * (u * Square(h))
  {
  }

  lemma CubeOfScaled(u: int, h: int)
    ensures Cube(u * Square(h)) == Cube(u) * (Cube(h) * Cube(h))
  {
    hide Cube, Square;
    CubeProduct(u, Square(h));
    SquareOfCube(h);
    SquareIs(Cube(h));
  }

  lemma SquareIs(a: int)
    ensures Square(a) == a * a
  {
  }

  lemma Assemble(q: int, n: int, m: int, k: int, d: int, t: int)
    requires q * n - m + k == -d
    ensures q * (n * n) - m * n + t == -(n * k) + t - n * d
  {
    assert (q * n - m + k) * n == q * (n * n) - m * n + n * k;
    assert (q * n - m + k) * n == -(n * d);
  }

  /** A point on the curve, over the common denominator. */
  lemma OverOnCurve(c: BitCurve, x: int, y: int, z: int, w: int)
    requires OnCurve(c, x, y, z)
    ensures Cong(c.p, Square(OverY(y, w)) - Cube(OverX(x, w)), c.b * Square(Cube(z * w)))
  {
    hide Cong, Square, Cube;
    var k, e := Square(Cube(w)), c.b * Square(Cube(z));
    Scale(c.p, Square(y), Cube(x) + e, k);
    Same(c.p, Cube(x) * k);
    Minus(c.p, Square(y) * k, (Cube(x) + e) * k, Cube(x) * k, Cube(x) * k);
    assert (Cube(x) + e) * k - Cube(x) * k == e * k;
    assert Square(OverY(y, w)) == Square(y) * k by { SquareProduct(y, Cube(w)); }
    assert Cube(OverX(x, w)) == Cube(x) * k by {
      CubeProduct(x, Square(w));
      SquareOfCube(w);
    }
    assert Square(Cube(z * w)) == Square(Cube(z)) * k by {
      CubeProduct(z, w);
      SquareProduct(Cube(z), Cube(w));
    }
    assert e * k == c.b * (Square(Cube(z)) * k);
  }

  lemma SquareProduct(a: int, b: int)
    ensures Square(a * b) == Square(a) * Square(b)
  {
  }

  lemma SumZPower(z1: int, z2: int, h: int)
    ensures Square(Cube(SumZ(z1, z2, h))) == 64 * (Square(Cube(z1 * z2)) * Square(Cube(h)))
  {
    hide Square, Cube;
    var w := z1 * z2;
    assert SumZ(z1, z2, h) == 2 * (w * h);
    CubeProduct(2, w * h);
    CubeProduct(w, h);
    SquareOfCube(2);
    Eight(Cube(2), Cube(w * h), Cube(w), Cube(h));
    assert 64 * Square(Cube(w)) * Square(Cube(h)) == 64 * (Square(Cube(w)) * Square(Cube(h)));
  }

  lemma SumScaled(u: int, s: int, h: int, r: int)
    ensures Square(SumY(u, s, h, r)) == 64 * Square(ChordY(u, s, h, r))
    ensures Cube(SumX(u, h, r)) == 64 * Cube(ChordX(u, h, r))
  {
    hide ChordX, ChordY;
  }

  /** The sum of two points on the curve is on the curve. */
  lemma SumOnCurve(c: BitCurve, x1: int, y1: int, z1: int, x2: int, y2: int, z2: int)
    requires OnCurve(c, x1, y1, z1) && OnCurve(c, x2, y2, z2)
    ensures var u, s := OverX(x1, z2), OverY(y1, z2);
            var h, r := OverX(x2, z1) - u, OverY(y2, z1) - s;
            OnCurve(c, SumX(u, h, r), SumY(u, s, h, r), SumZ(z1, z2, h))
  {
    hide Cong, OnCurve, Square, Cube, OverX, OverY, SumX, SumY, SumZ, ChordX, ChordY;
    var u, s := OverX(x1, z2), OverY(y1, z2);
    var h, r := OverX(x2, z1) - u, OverY(y2, z1) - s;
    OverOnCurve(c, x1, y1, z1, z2);
    OverOnCurve(c, x2, y2, z2, z1);
    assert z2 * z1 == z1 * z2;
    SumOver(c, u, s, h, r, z1 * z2);
    SumZPower(z1, z2, h);
    SumScaled(u, s, h, r);
    OnCurveIs(c, SumX(u, h, r), SumY(u, s, h, r), SumZ(z1, z2, h));
  }

  lemma OnCurveIs(c: BitCurve, x: int, y: int, z: int)
    ensures OnCurve(c, x, y, z) <==> Cong(c.p, Square(y), Cube(x) + c.b * Square(Cube(z)))
  {
  }

  lemma SumOver(c: BitCurve, u: int, s: int, h: int, r: int, w: int)
    requires Cong(c.p, Square(s) - Cube(u), c.b * Square(Cube(w)))
    requires Cong(c.p, Square(s + r) - Cube(u + h), c.b * Square(Cube(w)))
    ensures Cong(c.p, 64 * Square(ChordY(u, s, h, r)),
                 64 * Cube(ChordX(u, h, r)) + c.b * (64 * (Square(Cube(w)) * Square(Cube(h)))))
  {
    hide Cong, Square, Cube, ChordX, ChordY, ChordFactor;
    var x3, f, d, k, e := Cube(ChordX(u, h, r)), ChordFactor(u, h, r), ChordDefect(u, s, h, r), Square(Cube(h)),
                          c.b * Square(Cube(w));
    SumDefect(u, s, h, r);
    Minus(c.p, Square(s + r) - Cube(u + h), e, Square(s) - Cube(u), e);
    Same(c.p, f);
    Mul(c.p, f, f, d, 0);
    Scale(c.p, Square(s) - Cube(u), e, k);
    Same(c.p, x3);
    Plus(c.p, x3, x3, (Square(s) - Cube(u)) * k, e * k);
    Plus(c.p, x3 + (Square(s) - Cube(u)) * k, x3 + e * k, f * d, 0);
    Scale(c.p, Square(ChordY(u, s, h, r)), x3 + e * k, 64);
    assert (x3 + e * k) * 64 == 64 * x3 + 64 * (e * k);
    assert 64 * (e * k) == c.b * (64 * (Square(Cube(w)) * k)) by { Spread(c.b, Square(Cube(w)), k); }
  }

  lemma Spread(b: int, w: int, k: int)
    ensures 64 * (b * w * k) == b * (64 * (w * k))
  {
    assert b * w * k == b * (w * k);
  }

  // ----- congruent coordinates -----

  lemma SquareCong(p: int, a: int, b: int)
    requires Cong(p, a, b)
    ensures Cong(p, Square(a), Square(b))
  {
    hide Cong;
    Mul(p, a, b, a, b);
  }

  lemma CubeCong(p: int, a: int, b: int)
    requires Cong(p, a, b)
    ensures Cong(p, Cube(a), Cube(b))
  {
    hide Cong;
    Mul(p, a, b, a, b);
    Mul(p, a * a, b * b, a, b);
  }

  lemma OnCurveCong(c: BitCurve, x: int, y: int, z: int, x': int, y': int, z': int)
    requires Cong(c.p, x, x') && Cong(c.p, y, y') && Cong(c.p, z, z') && OnCurve(c, x', y', z')
    ensures OnCurve(c, x, y, z)
  {
    hide Cong, Square, Cube;
    SquareCong(c.p, y, y');
    CubeCong(c.p, x, x');
    CubeCong(c.p, z, z');
    SquareCong(c.p, Cube(z), Cube(z'));
    Same(c.p, c.b);
    Mul(c.p, c.b, c.b, Square(Cube(z)), Square(Cube(z')));
    Plus(c.p, Cube(x), Cube(x'), c.b * Square(Cube(z)), c.b * Square(Cube(z')));
    Symmetric(c.p, Cube(x) + c.b * Square(Cube(z)), Cube(x') + c.b * Square(Cube(z')));
    Transitive(c.p, Square(y), Square(y'), Cube(x') + c.b * Square(Cube(z')));
    Transitive(c.p, Square(y), Cube(x') + c.b * Square(Cube(z')), Cube(x) + c.b * Square(Cube(z)));
  }

  /** A difference brought back above zero. */
  method Corrected(p: int, a: int, ghost b: int) returns (r: int)
    requires Cong(p, a, b)
    ensures Cong(p, r, b)
  {
    r := a;
    if r < 0 {
      Shift(p, a, b);
      r := r + p;
    }
  }

  /** A coordinate over the common denominator, reduced. */
  method OverDenominator(p: int, x: int, y: int, z: int, zz: int) returns (u: int, s: int)
    requires p > 0 && Cong(p, zz, Prod(z, z))
    ensures Cong(p, u, OverX(x, z)) && Cong(p, s, OverY(y, z))
  {
    hide Cong, Prod, Mod, OverX, OverY;
    u := Prod(x, zz);
    Same(p, x);
    ProdCong(p, x, x, zz, Prod(z, z));
    OverXIs(x, z);
    ModCong(p, u, OverX(x, z));
    u := Mod(u, p);
    s := Prod(y, z);
    Same(p, s);
    ProdCong(p, s, s, zz, Prod(z, z));
    s := Prod(s, zz);
    OverYIs(y, z);
    ModCong(p, s, OverY(y, z));
    s := Mod(s, p);
  }

  method AddJacobian(c: BitCurve, x1: int, y1: int, z1: int, x2: int, y2: int, z2: int)
    returns (x3: int, y3: int, z3: int)
    requires c.p > 0
    ensures 0 <= x3 < c.p && 0 <= y3 < c.p && 0 <= z3 < c.p
    ensures var u, s := OverX(x1, z2), OverY(y1, z2);
            var h, r := OverX(x2, z1) - u, OverY(y2, z1) - s;
            && Cong(c.p, x3, SumX(u, h, r))
            && Cong(c.p, y3, SumY(u, s, h, r))
            && Cong(c.p, z3, SumZ(z1, z2, h))
    ensures OnCurve(c, x1, y1, z1) && OnCurve(c, x2, y2, z2) ==> OnCurve(c, x3, y3, z3)
    ensures forall a, b, l :: Represents(c, x1, y1, z1, a) && Represents(c, x2, y2, z2, b) && Chord(c, a, b, l) ==>
              Represents(c, x3, y3, z3, ThirdPoint(a, b.x, l))
  {
    hide Cong, Prod, Mod, OverX, OverY, SumX, SumY, SumZ, OnCurve, Represents, Chord, ThirdPoint;
    ghost var u, s := OverX(x1, z2), OverY(y1, z2);
    ghost var hh, rr := OverX(x2, z1) - u, OverY(y2, z1) - s;
    var z1z1 := Mod(Prod(z1, z1), c.p);
    ModSame(c.p, Prod(z1, z1));
    var z2z2 := Mod(Prod(z2, z2), c.p);
    ModSame(c.p, Prod(z2, z2));

    var u1, s1 := OverDenominator(c.p, x1, y1, z2, z2z2);
    var u2, s2 := OverDenominator(c.p, x2, y2, z1, z1z1);
    Minus(c.p, u2, OverX(x2, z1), u1, u);
    Minus(c.p, s2, OverY(y2, z1), s1, s);
    var h := Corrected(c.p, u2 - u1, hh);
    var r := Corrected(c.p, s2 - s1, rr);
    x3, y3 := AddXY(c, u1, s1, h, r, u, s, hh, rr);
    z3 := AddZ(c, z1, z2, z1z1, z2z2, h, hh);
    SumMeans(c, x1, y1, z1, x2, y2, z2, x3, y3, z3);
  }

  lemma SumMeans(c: BitCurve, x1: int, y1: int, z1: int, x2: int, y2: int, z2: int, x3: int, y3: int, z3: int)
    requires var u, s := OverX(x1, z2), OverY(y1, z2);
             var h, r := OverX(x2, z1) - u, OverY(y2, z1) - s;
             Cong(c.p, x3, SumX(u, h, r)) && Cong(c.p, y3, SumY(u, s, h, r)) && Cong(c.p, z3, SumZ(z1, z2, h))
    ensures OnCurve(c, x1, y1, z1) && OnCurve(c, x2, y2, z2) ==> OnCurve(c, x3, y3, z3)
    ensures forall a, b, l :: Represents(c, x1, y1, z1, a) && Represents(c, x2, y2, z2, b) && Chord(c, a, b, l) ==>
              Represents(c, x3, y3, z3, ThirdPoint(a, b.x, l))
  {
    hide Cong, OverX, OverY, SumX, SumY, SumZ, OnCurve, Represents, Chord, ThirdPoint;
    var u, s := OverX(x1, z2), OverY(y1, z2);
    var h, r := OverX(x2, z1) - u, OverY(y2, z1) - s;
    if OnCurve(c, x1, y1, z1) && OnCurve(c, x2, y2, z2) {
      SumOnCurve(c, x1, y1, z1, x2, y2, z2);
      OnCurveCong(c, x3, y3, z3, SumX(u, h, r), SumY(u, s, h, r), SumZ(z1, z2, h));
    }
    forall a, b, l | Represents(c, x1, y1, z1, a) && Represents(c, x2, y2, z2, b) && Chord(c, a, b, l)
      ensures Represents(c, x3, y3, z3, ThirdPoint(a, b.x, l))
    {
      ChordLaw(c, x1, y1, z1, x2, y2, z2, a, b, l);
      RepresentsCong(c, x3, y3, z3, SumX(u, h, r), SumY(u, s, h, r), SumZ(z1, z2, h), ThirdPoint(a, b.x, l));
    }
  }

  method AddXY(c: BitCurve, u1: int, s1: int, h: int, halfR: int, ghost u: int, ghost s: int, ghost hh: int, ghost rr: int)
    returns (x3: int, y3: int)
    requires c.p > 0 && Cong(c.p, u1, u) && Cong(c.p, s1, s) && Cong(c.p, h, hh) && Cong(c.p, halfR, rr)
    ensures 0 <= x3 < c.p && 0 <= y3 < c.p
    ensures Cong(c.p, x3, SumX(u, hh, rr)) && Cong(c.p, y3, SumY(u, s, hh, rr))
  {
    hide Cong, Prod, Mod, SumX, SumY;
    Twice(c.p, h, hh);
    Twice(c.p, halfR, rr);
    var i := 2 * h;
    ProdCong(c.p, 2 * h, 2 * hh, 2 * h, 2 * hh);
    i := Prod(i, i);
    var j := Prod(h, i);
    ghost var ii := Prod(2 * hh, 2 * hh);
    ProdCong(c.p, h, hh, i, ii);
    var r := 2 * halfR;
    var v := Prod(u1, i);
    ProdCong(c.p, u1, u, i, ii);

    ProdCong(c.p, r, 2 * rr, r, 2 * rr);
    x3 := Prod(r, r);
    Minus(c.p, x3, Prod(2 * rr, 2 * rr), j, Prod(hh, ii));
    x3 := x3 - j;
    Minus(c.p, x3, Prod(2 * rr, 2 * rr) - Prod(hh, ii), v, Prod(u, ii));
    x3 := x3 - v;
    Minus(c.p, x3, Prod(2 * rr, 2 * rr) - Prod(hh, ii) - Prod(u, ii), v, Prod(u, ii));
    x3 := x3 - v;
    SumXIs(u, hh, rr);
    ModCong(c.p, x3, SumX(u, hh, rr));
    x3 := Mod(x3, c.p);

    Minus(c.p, v, Prod(u, ii), x3, SumX(u, hh, rr));
    v := v - x3;
    ProdCong(c.p, r, 2 * rr, v, Prod(u, ii) - SumX(u, hh, rr));
    y3 := Prod(r, v);
    ProdCong(c.p, s1, s, j, Prod(hh, ii));
    var sj := Prod(s1, j);
    Twice(c.p, sj, Prod(s, Prod(hh, ii)));
    sj := 2 * sj;
    Minus(c.p, y3, Prod(2 * rr, Prod(u, ii) - SumX(u, hh, rr)), sj, 2 * Prod(s, Prod(hh, ii)));
    y3 := y3 - sj;
    SumYIs(u, s, hh, rr);
    ModCong(c.p, y3, SumY(u, s, hh, rr));
    y3 := Mod(y3, c.p);
  }

  lemma Twice(p: int, a: int, b: int)
    requires Cong(p, a, b)
    ensures Cong(p, 2 * a, 2 * b)
  {
    hide Cong;
    Plus(p, a, b, a, b);
  }

  method AddZ(c: BitCurve, z1: int, z2: int, z1z1: int, z2z2: int, h: int, ghost hh: int) returns (z3: int)
    requires c.p > 0 && Cong(c.p, h, hh) && Cong(c.p, z1z1, Prod(z1, z1)) && Cong(c.p, z2z2, Prod(z2, z2))
    ensures 0 <= z3 < c.p && Cong(c.p, z3, SumZ(z1, z2, hh))
  {
    hide Cong, Prod, Mod, SumZ;
    z3 := z1 + z2;
    z3 := Prod(z3, z3);
    ghost var t := Prod(z1 + z2, z1 + z2);
    Same(c.p, z3);
    Minus(c.p, z3, t, z1z1, Prod(z1, z1));
    z3 := Corrected(c.p, z3 - z1z1, t - Prod(z1, z1));
    Minus(c.p, z3, t - Prod(z1, z1), z2z2, Prod(z2, z2));
    z3 := Corrected(c.p, z3 - z2z2, t - Prod(z1, z1) - Prod(z2, z2));
    ProdCong(c.p, z3, t - Prod(z1, z1) - Prod(z2, z2), h, hh);
    z3 := Prod(z3, h);
    SumZIs(z1, z2, hh);
    ModCong(c.p, z3, SumZ(z1, z2, hh));
    z3 := Mod(z3, c.p);
  }

  // ----- the affine laws -----

  /** The triple stands for the affine point: x / z^2 and y / z^3 without dividing. */
  ghost predicate Represents(c: BitCurve, x: int, y: int, z: int, a: Point) {
    Cong(c.p, x, a.x * Square(z)) && Cong(c.p, y, a.y * Cube(z))
  }

  /** The third point of the line with slope l through a, whose other point has abscissa x2, mirrored. */
  function ThirdPoint(a: Point, x2: int, l: int): Point {
    var x3 := Square(l) - a.x - x2;
    Point(x3, l * (a.x - x3) - a.y)
  }

  /** The slope of the line through two points, or of the tangent at one. */
  ghost predicate Chord(c: BitCurve, a: Point, b: Point, l: int) {
    Cong(c.p, l * (b.x - a.x), b.y - a.y)
  }

  ghost predicate Tangent(c: BitCurve, a: Point, l: int) {
    Cong(c.p, l * (2 * a.y), 3 * Square(a.x))
  }

  lemma LineX(q: int, l: int, e: int, x: int)
    ensures Square(l * q) - e * Square(q) - 2 * (x * Square(q)) == (Square(l) - e - 2 * x) * Square(q)
  {
    assert Square(l * q) == Square(l) * Square(q);
  }

  lemma LineY(q: int, l: int, x: int, x3: int, y: int)
    ensures l * q * (x * Square(q) - x3 * Square(q)) - y * Cube(q) == (l * (x - x3) - y) * Cube(q)
  {
    var q2 := q * q;
    assert x * q2 - x3 * q2 == (x - x3) * q2;
    assert l * q * ((x - x3) * q2) == l * (x - x3) * (q * q2) by { Four(l, q, x - x3, q2); }
    assert q * q2 == Cube(q);
  }

  lemma Four(a: int, b: int, c: int, d: int)
    ensures a * b * (c * d) == a * c * (b * d)
  {
  }

  /** Doubling in terms of q = 2 y z^4, for coordinates already in the form x z^2 and y z^3. */
  lemma DoublePieces(x: int, y: int, z: int, q: int)
    requires q == DoubleZ(y * Cube(z), z)
    ensures 4 * (x * Square(z)) * Square(y * Cube(z)) == x * Square(q)
    ensures 8 * Square(Square(y * Cube(z))) == y * Cube(q)
    ensures q == 2 * y * (Cube(z) * z)
  {
    var z2, z3 := z * z, z * z * z;
    assert z3 * z == z2 * z2;
    var n := y * (z2 * z2);
    assert q == 2 * n;
    assert Square(q) == 4 * (n * n);
    assert n * n == y * y * (z2 * z2 * (z2 * z2)) by { Four(y, z2 * z2, y, z2 * z2); }
    assert Square(y * z3) == y * y * (z3 * z3) by { Four(y, z3, y, z3); }
    assert z2 * (z3 * z3) == z2 * z2 * (z2 * z2) by {
      assert z3 == z2 * z;
      Four(z2, z, z2, z);
    }
    assert x * z2 * (y * y * (z3 * z3)) == x * (y * y) * (z2 * (z3 * z3)) by { Four(x, z2, y * y, z3 * z3); }
    assert x * (y * y * (z2 * z2 * (z2 * z2))) == x * (y * y) * (z2 * z2 * (z2 * z2));
    EighthPart(y, z3, z2, n, q);
  }

  lemma EighthPart(y: int, z3: int, z2: int, n: int, q: int)
    requires n == y * (z2 * z2) && q == 2 * n && z3 * z3 == z2 * z2 * z2
    ensures 8 * Square(Square(y * z3)) == y * Cube(q)
  {
    var b := y * z3 * (y * z3);
    assert b == y * y * (z3 * z3) by { Four(y, z3, y, z3); }
    var z6 := z3 * z3;
    assert b * b == y * y * (y * y) * (z6 * z6) by { Four(y * y, z6, y * y, z6); }
    assert z6 * z6 == z2 * z2 * (z2 * z2) * (z2 * z2) by { Six(z2); }
    assert Cube(q) == 8 * (n * n * n);
    assert n * n == y * y * (z2 * z2 * (z2 * z2)) by { Four(y, z2 * z2, y, z2 * z2); }
    var z8 := z2 * z2 * (z2 * z2);
    assert n * n * n == y * y * y * (z8 * (z2 * z2)) by { Four(y * y, z8, y, z2 * z2); }
    assert y * (y * y * y * (z8 * (z2 * z2))) == y * y * (y * y) * (z8 * (z2 * z2));
  }

  lemma Six(a: int)
    ensures a * a * a * (a * a * a) == a * a * (a * a) * (a * a)
  {
  }

  lemma ScaledCong(p: int, k: int, a: int, b: int)
    requires Cong(p, a, b)
    ensures Cong(p, k * a, k * b)
  {
    hide Cong;
    Same(p, k);
    Mul(p, k, k, a, b);
  }

  /**
    What doubling and addition have in common: for e, d, k and m that are l q, x q^2, y q^3 and o q^2 up to congruence,
    e^2 - m - 2d and e (d - (e^2 - m - 2d)) - k are the coordinates of the third point times q^2 and q^3.
    */
  lemma LineCong(p: int, e: int, d: int, k: int, m: int, q: int, l: int, o: int, x: int, y: int)
    requires Cong(p, e, l * q) && Cong(p, d, x * Square(q)) && Cong(p, k, y * Cube(q)) && Cong(p, m, o * Square(q))
    ensures var x3 := Square(l) - o - 2 * x;
            && Cong(p, Square(e) - m - 2 * d, x3 * Square(q))
            && Cong(p, e * (d - (Square(e) - m - 2 * d)) - k, (l * (x - x3) - y) * Cube(q))
  {
    hide Cong, Square, Cube;
    var x3 := Square(l) - o - 2 * x;
    var w := Square(e) - m - 2 * d;
    LineX(q, l, o, x);
    assert Cong(p, w, x3 * Square(q)) by {
      SquareCong(p, e, l * q);
      ScaledCong(p, 2, d, x * Square(q));
      Minus(p, Square(e), Square(l * q), m, o * Square(q));
      Minus(p, Square(e) - m, Square(l * q) - o * Square(q), 2 * d, 2 * (x * Square(q)));
    }
    Minus(p, d, x * Square(q), w, x3 * Square(q));
    Mul(p, e, l * q, d - w, x * Square(q) - x3 * Square(q));
    Minus(p, e * (d - w), l * q * (x * Square(q) - x3 * Square(q)), k, y * Cube(q));
    LineY(q, l, x, x3, y);
  }

  /** A tangent of slope l: the double stands for the point where it meets the curve again, mirrored. */
  lemma TangentLaw(c: BitCurve, x: int, y: int, z: int, a: Point, l: int)
    requires Represents(c, x, y, z, a) && Tangent(c, a, l)
    ensures Represents(c, DoubleX(x, y), DoubleY(x, y), DoubleZ(y, z), ThirdPoint(a, a.x, l))
  {
    hide Cong, Square, Cube, DoubleX, DoubleY, DoubleZ;
    var xx, yy := a.x * Square(z), a.y * Cube(z);
    var q := DoubleZ(yy, z);
    DoublePieces(a.x, a.y, z, q);
    TangentE(c, a, l, z, q);
    var e, d, k := 3 * Square(x), 4 * x * Square(y), 8 * Square(Square(y));
    PiecesCong(c.p, x, y, xx, yy);
    Transitive(c.p, e, 3 * Square(xx), l * q);
    Nothing(c.p, q);
    LineCong(c.p, e, d, k, 0, q, l, 0, a.x, a.y);
    DoubleXPieces(x, y);
    DoubleYPieces(x, y);
    DoubleZCong(c.p, y, yy, z);
    Retarget(c, DoubleX(x, y), DoubleY(x, y), q, DoubleZ(y, z), ThirdPoint(a, a.x, l));
  }

  lemma Nothing(p: int, q: int)
    ensures Cong(p, 0, 0 * Square(q))
  {
    Same(p, 0);
  }

  /** The pieces of addition in terms of q = e w^3. */
  lemma ChordPieces(x: int, y: int, e: int, w: int, q: int)
    requires q == e * Cube(w)
    ensures Cube(e * Square(w)) == e * Square(q)
    ensures x * Square(w) * Square(e * Square(w)) == x * Square(q)
    ensures y * Cube(w) * Cube(e * Square(w)) == y * Cube(q)
  {
    hide Cube, Square;
    var w2, w3 := Square(w), Cube(w);
    SquareOfCube(w);
    SquareProduct(e, w3);
    CubeProduct(e, w2);
    CubeProduct(e, w3);
    SquareProduct(e, w2);
    CubeSplit(e);
    CubeSplit(w2);
    CubeSplit(w3);
    assert Cube(e * w2) == e * Square(e) * Cube(w2);
    assert x * w2 * (Square(e) * Square(w2)) == x * (Square(e) * Cube(w2)) by { Four(x, w2, Square(e), Square(w2)); }
    assert y * w3 * (Cube(e) * Cube(w2)) == y * (Cube(e) * Cube(w3)) by { Four(y, w3, Cube(e), Cube(w2)); }
  }

  lemma CubeSplit(a: int)
    ensures Cube(a) == a * Square(a)
  {
  }

  lemma OverCong(c: BitCurve, x: int, y: int, z: int, z': int, a: Point)
    requires Represents(c, x, y, z, a)
    ensures Cong(c.p, OverX(x, z'), a.x * Square(z * z'))
    ensures Cong(c.p, OverY(y, z'), a.y * Cube(z * z'))
  {
    hide Cong, Square, Cube;
    Scale(c.p, x, a.x * Square(z), Square(z'));
    Scale(c.p, y, a.y * Cube(z), Cube(z'));
    SquareProduct(z, z');
    CubeProduct(z, z');
    Associate(a.x, Square(z), Square(z'));
    Associate(a.y, Cube(z), Cube(z'));
  }

  /** A chord of slope l: the sum stands for its third point, mirrored. */
  lemma ChordLaw(c: BitCurve, x1: int, y1: int, z1: int, x2: int, y2: int, z2: int, a: Point, b: Point, l: int)
    requires Represents(c, x1, y1, z1, a) && Represents(c, x2, y2, z2, b) && Chord(c, a, b, l)
    ensures var u, s := OverX(x1, z2), OverY(y1, z2);
            var h, r := OverX(x2, z1) - u, OverY(y2, z1) - s;
            Represents(c, SumX(u, h, r), SumY(u, s, h, r), SumZ(z1, z2, h), ThirdPoint(a, b.x, l))
  {
    hide Cong, Square, Cube, OverX, OverY, SumX, SumY, SumZ, Represents;
    var u, s := OverX(x1, z2), OverY(y1, z2);
    var h, r := OverX(x2, z1) - u, OverY(y2, z1) - s;
    var w := z1 * z2;
    OverCong(c, x1, y1, z1, z2, a);
    OverCong(c, x2, y2, z2, z1, b);
    assert z2 * z1 == w;
    Minus(c.p, OverX(x2, z1), b.x * Square(w), u, a.x * Square(w));
    Minus(c.p, OverY(y2, z1), b.y * Cube(w), s, a.y * Cube(w));
    ChordLawOver(c, u, s, h, r, z1, z2, a, b, l);
  }

  lemma ChordLawOver(c: BitCurve, u: int, s: int, h: int, r: int, z1: int, z2: int, a: Point, b: Point, l: int)
    requires Chord(c, a, b, l)
    requires Cong(c.p, u, a.x * Square(z1 * z2)) && Cong(c.p, s, a.y * Cube(z1 * z2))
    requires Cong(c.p, h, b.x * Square(z1 * z2) - a.x * Square(z1 * z2))
    requires Cong(c.p, r, b.y * Cube(z1 * z2) - a.y * Cube(z1 * z2))
    ensures Represents(c, SumX(u, h, r), SumY(u, s, h, r), SumZ(z1, z2, h), ThirdPoint(a, b.x, l))
  {
    hide Cong, Square, Cube, SumX, SumY, SumZ, ChordX, ChordY;
    var w, e := z1 * z2, b.x - a.x;
    var q := e * Cube(w);
    Difference(a.x, b.x, Square(w));
    ChordSlope(c, r, a, b, l, Cube(w), q);
    ChordPieces(a.x, a.y, e, w, q);
    CubeCong(c.p, h, e * Square(w));
    SquareCong(c.p, h, e * Square(w));
    Mul(c.p, u, a.x * Square(w), Square(h), Square(e * Square(w)));
    Mul(c.p, s, a.y * Cube(w), Cube(h), Cube(e * Square(w)));
    LineCong(c.p, r, u * Square(h), s * Cube(h), Cube(h), q, l, e, a.x, a.y);
    assert ChordX(u, h, r) == Square(r) - Cube(h) - 2 * (u * Square(h)) by { ChordXIs(u, h, r); }
    assert ChordY(u, s, h, r) == r * (u * Square(h) - ChordX(u, h, r)) - s * Cube(h) by { ChordYIs(u, s, h, r); }
    ChordScaled(c, u, s, h, r, z1, z2, e, q, ThirdPoint(a, b.x, l));
  }

  lemma Difference(a: int, b: int, k: int)
    ensures b * k - a * k == (b - a) * k
  {
  }

  lemma ChordSlope(c: BitCurve, r: int, a: Point, b: Point, l: int, k: int, q: int)
    requires Chord(c, a, b, l) && Cong(c.p, r, b.y * k - a.y * k) && q == (b.x - a.x) * k
    ensures Cong(c.p, r, l * q)
  {
    hide Cong;
    var e := b.x - a.x;
    Difference(a.y, b.y, k);
    Scale(c.p, l * e, b.y - a.y, k);
    Symmetric(c.p, l * e * k, (b.y - a.y) * k);
    Transitive(c.p, r, (b.y - a.y) * k, l * e * k);
    Associate(l, e, k);
  }

  lemma ChordYIs(u: int, s: int, h: int, r: int)
    ensures ChordY(u, s, h, r) == r * (u * Square(h) - ChordX(u, h, r)) - s * Cube(h)
  {
  }

  /** From q to the denominator 2 q of the sum. */
  lemma ChordScaled(c: BitCurve, u: int, s: int, h: int, r: int, z1: int, z2: int, e: int, q: int, t: Point)
    requires Cong(c.p, ChordX(u, h, r), t.x * Square(q)) && Cong(c.p, ChordY(u, s, h, r), t.y * Cube(q))
    requires Cong(c.p, h, e * Square(z1 * z2)) && q == e * Cube(z1 * z2)
    ensures Represents(c, SumX(u, h, r), SumY(u, s, h, r), SumZ(z1, z2, h), t)
  {
    hide Cong, Square, Cube, ChordX, ChordY;
    var w := z1 * z2;
    ScaledCong(c.p, 4, ChordX(u, h, r), t.x * Square(q));
    ScaledCong(c.p, 8, ChordY(u, s, h, r), t.y * Cube(q));
    SquareProduct(2, q);
    CubeProduct(2, q);
    assert Square(2) == 4 && Cube(2) == 8 by { SmallPowers(); }
    assert 4 * (t.x * Square(q)) == t.x * Square(2 * q);
    assert 8 * (t.y * Cube(q)) == t.y * Cube(2 * q);
    ScaledCong(c.p, 2 * w, h, e * Square(w));
    assert 2 * w * (e * Square(w)) == 2 * q by { CubeSplit(w); }
    assert SumZ(z1, z2, h) == 2 * w * h;
    Symmetric(c.p, 2 * w * h, 2 * q);
    Retarget(c, SumX(u, h, r), SumY(u, s, h, r), 2 * q, SumZ(z1, z2, h), t);
  }

  lemma SmallPowers()
    ensures Square(2) == 4 && Cube(2) == 8
  {
  }

  lemma DoubleXPieces(x: int, y: int)
    ensures Square(3 * Square(x)) - 2 * (4 * x * Square(y)) == DoubleX(x, y)
  {
  }

  lemma DoubleYPieces(x: int, y: int)
    ensures 3 * Square(x) * (4 * x * Square(y) - DoubleX(x, y)) - 8 * Square(Square(y)) == DoubleY(x, y)
  {
  }

  lemma PiecesCong(p: int, x: int, y: int, xx: int, yy: int)
    requires Cong(p, x, xx) && Cong(p, y, yy)
    ensures Cong(p, 3 * Square(x), 3 * Square(xx))
    ensures Cong(p, 4 * x * Square(y), 4 * xx * Square(yy))
    ensures Cong(p, 8 * Square(Square(y)), 8 * Square(Square(yy)))
  {
    hide Cong, Square;
    SquareCong(p, x, xx);
    SquareCong(p, y, yy);
    SquareCong(p, Square(y), Square(yy));
    ScaledCong(p, 3, Square(x), Square(xx));
    ScaledCong(p, 4, x, xx);
    Mul(p, 4 * x, 4 * xx, Square(y), Square(yy));
    ScaledCong(p, 8, Square(Square(y)), Square(Square(yy)));
  }

  lemma TangentE(c: BitCurve, a: Point, l: int, z: int, q: int)
    requires Tangent(c, a, l) && q == 2 * a.y * (Cube(z) * z)
    ensures Cong(c.p, 3 * Square(a.x * Square(z)), l * q)
  {
    hide Cong;
    var z4 := Square(z) * Square(z);
    Scale(c.p, l * (2 * a.y), 3 * Square(a.x), z4);
    Symmetric(c.p, l * (2 * a.y) * z4, 3 * Square(a.x) * z4);
    assert 3 * Square(a.x * Square(z)) == 3 * Square(a.x) * z4 by { SquareProduct(a.x, Square(z)); }
    assert Cube(z) * z == z4;
    assert l * (2 * a.y) * z4 == l * (2 * a.y * z4);
  }

  lemma DoubleZCong(p: int, y: int, yy: int, z: int)
    requires Cong(p, y, yy)
    ensures Cong(p, DoubleZ(yy, z), DoubleZ(y, z))
  {
    hide Cong;
    Symmetric(p, y, yy);
    ScaledCong(p, 2, yy, y);
    Scale(p, 2 * yy, 2 * y, z);
  }

  /** The denominator may be replaced by a congruent one. */
  lemma Retarget(c: BitCurve, x: int, y: int, z: int, z': int, a: Point)
    requires Cong(c.p, x, a.x * Square(z)) && Cong(c.p, y, a.y * Cube(z)) && Cong(c.p, z, z')
    ensures Represents(c, x, y, z', a)
  {
    hide Cong, Square, Cube;
    SquareCong(c.p, z, z');
    CubeCong(c.p, z, z');
    ScaledCong(c.p, a.x, Square(z), Square(z'));
    ScaledCong(c.p, a.y, Cube(z), Cube(z'));
    Transitive(c.p, x, a.x * Square(z), a.x * Square(z'));
    Transitive(c.p, y, a.y * Cube(z), a.y * Cube(z'));
  }

  lemma RepresentsCong(c: BitCurve, x: int, y: int, z: int, x': int, y': int, z': int, a: Point)
    requires Cong(c.p, x, x') && Cong(c.p, y, y') && Cong(c.p, z, z') && Represents(c, x', y', z', a)
    ensures Represents(c, x, y, z, a)
  {
    hide Cong, Square, Cube;
    Transitive(c.p, x, x', a.x * Square(z'));
    Transitive(c.p, y, y', a.y * Cube(z'));
    Symmetric(c.p, z, z');
    Retarget(c, x, y, z', z, a);
  }

  // ----- affine points -----

  method IsOnCurve(c: BitCurve, x: int, y: int) returns (on: bool)
    requires c.p > 0
    ensures on <==> OnCurve(c, x, y, 1)
  {
    hide Cong;
    var y2 := y * y;
    y2 := y2 % c.p;
    var x3 := x * x;
    x3 := x3 * x;
    x3 := x3 + c.b;
    x3 := x3 % c.p;
    ReducedEqual(c.p, Square(y), Cube(x) + c.b);
    assert Square(Cube(1)) == 1;
    on := x3 == y2;
  }

  /** The inverse modulo p, as the big-integer library specifies it. */
  method ModInverse(z: int, p: int) returns (inverse: Option<int>)
    requires p > 0
    ensures inverse.Some? ==> Inverse(p, z, inverse.value)
    ensures inverse.None? ==> !Invertible(p, z)
  {
    hide Cong;
    var k := 0;
    while k < p
      invariant 0 <= k <= p
      invariant forall l :: 0 <= l < k ==> !Inverse(p, z, l)
    {
      ReducedEqual(p, z * k, 1);
      if z * k % p == 1 % p {
        return Some(k);
      }
      k := k + 1;
    }
    forall l
      ensures !Inverse(p, z, l)
    {
      SmallInverse(p, z, l);
      Reduced(p, l);
    }
    inverse := None;
  }

  ghost predicate Inverse(p: int, z: int, k: int) {
    Cong(p, z * k, 1)
  }

  ghost predicate Invertible(p: int, z: int) {
    exists k :: Inverse(p, z, k)
  }

  lemma SmallInverse(p: int, z: int, k: int)
    requires p > 0
    ensures Inverse(p, z, k) ==> Inverse(p, z, k % p)
  {
    hide Cong;
    Reduced(p, k);
    ScaledCong(p, z, k % p, k);
    if Inverse(p, z, k) {
      Transitive(p, z * (k % p), z * k, 1);
    }
  }

  /** An affine point, or a panic: the source goes on with the missing inverse and dereferences it. */
  datatype Outcome = Affine(point: Point) | Panic

  /** The affine point a triple stands for; it panics when the denominator has no inverse. */
  method AffineFromJacobian(c: BitCurve, x: int, y: int, z: int) returns (r: Outcome)
    requires c.p > 0
    ensures r.Affine? <==> Invertible(c.p, z)
    ensures r.Affine? ==> Represents(c, x, y, z, r.point)
    ensures r.Affine? ==> forall a :: Represents(c, x, y, z, a) ==> Cong(c.p, r.point.x, a.x) && Cong(c.p, r.point.y, a.y)
  {
    hide Cong, Square, Cube, Represents;
    var inverse := ModInverse(z, c.p);
    if inverse == None {
      return Panic;
    }
    var zinv := inverse.value;
    assert Inverse(c.p, z, zinv);
    var zinvsq := Prod(zinv, zinv);
    var xOut := Mod(Prod(x, zinvsq), c.p);
    ModSame(c.p, Prod(x, zinvsq));
    zinvsq := Prod(zinvsq, zinv);
    var yOut := Mod(Prod(y, zinvsq), c.p);
    ModSame(c.p, Prod(y, zinvsq));
    assert Prod(zinv, zinv) == Square(zinv) && Prod(Prod(zinv, zinv), zinv) == Cube(zinv) by { PowersAre(zinv); }
    r := Affine(Point(xOut, yOut));
    AffineMeans(c, x, y, z, zinv, r.point);
  }

  lemma PowersAre(a: int)
    ensures Prod(a, a) == Square(a) && Prod(Prod(a, a), a) == Cube(a)
  {
  }

  lemma AffineMeans(c: BitCurve, x: int, y: int, z: int, zinv: int, r: Point)
    requires Cong(c.p, z * zinv, 1)
    requires Cong(c.p, r.x, x * Square(zinv)) && Cong(c.p, r.y, y * Cube(zinv))
    ensures Represents(c, x, y, z, r)
    ensures forall a :: Represents(c, x, y, z, a) ==> Cong(c.p, r.x, a.x) && Cong(c.p, r.y, a.y)
  {
    hide Cong, Square, Cube;
    SquareCong(c.p, z * zinv, 1);
    CubeCong(c.p, z * zinv, 1);
    SquareProduct(z, zinv);
    CubeProduct(z, zinv);
    Ones();
    Undo(c.p, r.x, x, Square(zinv), Square(z));
    Undo(c.p, r.y, y, Cube(zinv), Cube(z));
    forall a | Represents(c, x, y, z, a)
      ensures Cong(c.p, r.x, a.x) && Cong(c.p, r.y, a.y)
    {
      Redo(c.p, r.x, x, Square(zinv), Square(z), a.x);
      Redo(c.p, r.y, y, Cube(zinv), Cube(z), a.y);
    }
  }

  lemma Ones()
    ensures Square(1) == 1 && Cube(1) == 1
  {
  }

  /** r = x i and i k = 1 give x = r k. */
  lemma Undo(p: int, r: int, x: int, i: int, k: int)
    requires Cong(p, r, x * i) && Cong(p, k * i, 1)
    ensures Cong(p, x, r * k)
  {
    hide Cong;
    Scale(p, r, x * i, k);
    ScaledCong(p, x, k * i, 1);
    assert x * i * k == x * (k * i);
    Transitive(p, r * k, x * i * k, x);
    Symmetric(p, r * k, x);
  }

  /** r = x i, x = a k and i k = 1 give r = a. */
  lemma Redo(p: int, r: int, x: int, i: int, k: int, a: int)
    requires Cong(p, r, x * i) && Cong(p, k * i, 1) && Cong(p, x, a * k)
    ensures Cong(p, r, a)
  {
    hide Cong;
    Scale(p, x, a * k, i);
    ScaledCong(p, a, k * i, 1);
    assert a * k * i == a * (k * i);
    Transitive(p, r, x * i, a * k * i);
    Transitive(p, r, a * k * i, a);
  }

  /** A triple on the curve with an invertible denominator stands for a point on the curve. */
  lemma AffineOnCurve(c: BitCurve, x: int, y: int, z: int, zinv: int, r: Point)
    requires OnCurve(c, x, y, z) && Represents(c, x, y, z, r) && Inverse(c.p, z, zinv)
    ensures OnCurve(c, r.x, r.y, 1)
  {
    hide Cong, Square, Cube;
    var k, i := Square(Cube(z)), Square(Cube(zinv));
    SquareCong(c.p, y, r.y * Cube(z));
    CubeCong(c.p, x, r.x * Square(z));
    SquareProduct(r.y, Cube(z));
    CubeProduct(r.x, Square(z));
    SquareOfCube(z);
    Same(c.p, c.b * k);
    Plus(c.p, Cube(x), Cube(r.x) * k, c.b * k, c.b * k);
    Symmetric(c.p, Square(y), Square(r.y) * k);
    Transitive(c.p, Square(r.y) * k, Square(y), Cube(x) + c.b * k);
    Transitive(c.p, Square(r.y) * k, Cube(x) + c.b * k, Cube(r.x) * k + c.b * k);
    CubeCong(c.p, z * zinv, 1);
    CubeProduct(z, zinv);
    SquareCong(c.p, Cube(z) * Cube(zinv), Cube(1));
    SquareProduct(Cube(z), Cube(zinv));
    Ones();
    assert Cube(r.x) * k + c.b * k == (Cube(r.x) + c.b) * k;
    Cancel(c.p, Square(r.y), Cube(r.x) + c.b, k, i);
  }

  lemma Cancel(p: int, a: int, b: int, k: int, i: int)
    requires Cong(p, a * k, b * k) && Cong(p, k * i, 1)
    ensures Cong(p, a, b)
  {
    hide Cong;
    Scale(p, a * k, b * k, i);
    ScaledCong(p, a, k * i, 1);
    ScaledCong(p, b, k * i, 1);
    assert a * k * i == a * (k * i) && b * k * i == b * (k * i);
    Symmetric(p, a * k * i, a);
    Transitive(p, a, a * k * i, b * k * i);
    Transitive(p, a, b * k * i, b);
  }

  lemma InverseCong(p: int, z: int, z': int, k: int)
    requires Cong(p, z, z')
    ensures Inverse(p, z, k) <==> Inverse(p, z', k)
  {
    hide Cong;
    Scale(p, z, z', k);
    Symmetric(p, z * k, z' * k);
    if Inverse(p, z, k) {
      Transitive(p, z' * k, z * k, 1);
    } else if Inverse(p, z', k) {
      Transitive(p, z * k, z' * k, 1);
    }
  }

  lemma ZeroHasNoInverse(p: int, z: int, k: int)
    requires p > 1 && Cong(p, z, 0)
    ensures !Inverse(p, z, k)
  {
    hide Cong;
    Scale(p, z, 0, k);
    Symmetric(p, z * k, 0);
    if Inverse(p, z, k) {
      Transitive(p, 0, z * k, 1);
    }
    ReducedEqual(p, 0, 1);
  }

  lemma AffineIsItself(c: BitCurve, a: Point)
    ensures Represents(c, a.x, a.y, 1, a)
  {
    Same(c.p, a.x);
    Same(c.p, a.y);
  }

  /**
    The sum of two affine points by the chord law. It panics exactly when twice the difference of the abscissas cannot
    be inverted, so always for a point and itself, where the sum of the group is the double.
    */
  method Add(c: BitCurve, a: Point, b: Point) returns (r: Outcome)
    requires c.p > 0
    ensures r.Affine? <==> Invertible(c.p, 2 * (b.x - a.x))
    ensures c.p > 1 && Cong(c.p, b.x - a.x, 0) ==> r.Panic?
    ensures r.Affine? ==> forall l :: Chord(c, a, b, l) ==>
              Cong(c.p, r.point.x, ThirdPoint(a, b.x, l).x) && Cong(c.p, r.point.y, ThirdPoint(a, b.x, l).y)
    ensures r.Affine? && OnCurve(c, a.x, a.y, 1) && OnCurve(c, b.x, b.y, 1) ==> OnCurve(c, r.point.x, r.point.y, 1)
  {
    hide Cong, OnCurve, Represents, Chord, ThirdPoint, Inverse, SumX, SumY, OverY;
    AffineIsItself(c, a);
    AffineIsItself(c, b);
    var x3, y3, z3 := AddJacobian(c, a.x, a.y, 1, b.x, b.y, 1);
    assert Cong(c.p, z3, 2 * (b.x - a.x)) by { UnitSumZ(a.x, b.x); }
    r := AffineFromJacobian(c, x3, y3, z3);
    InverseSame(c.p, z3, 2 * (b.x - a.x));
    if Cong(c.p, b.x - a.x, 0) && c.p > 1 {
      Twice(c.p, b.x - a.x, 0);
      NoInverse(c.p, 2 * (b.x - a.x));
    }
    if r.Affine? && OnCurve(c, x3, y3, z3) {
      ghost var k :| Inverse(c.p, z3, k);
      AffineOnCurve(c, x3, y3, z3, k, r.point);
    }
  }

  lemma UnitSumZ(x1: int, x2: int)
    ensures SumZ(1, 1, OverX(x2, 1) - OverX(x1, 1)) == 2 * (x2 - x1)
  {
  }

  lemma InverseSame(p: int, z: int, z': int)
    requires Cong(p, z, z')
    ensures Invertible(p, z) <==> Invertible(p, z')
  {
    hide Cong, Inverse;
    forall k
      ensures Inverse(p, z, k) <==> Inverse(p, z', k)
    {
      InverseCong(p, z, z', k);
    }
  }

  lemma NoInverse(p: int, z: int)
    requires p > 1 && Cong(p, z, 0)
    ensures !Invertible(p, z)
  {
    hide Cong, Inverse;
    forall k
      ensures !Inverse(p, z, k)
    {
      ZeroHasNoInverse(p, z, k);
    }
  }

  /** The double of an affine point by the tangent law; it panics exactly when twice the ordinate cannot be inverted. */
  method Double(c: BitCurve, a: Point) returns (r: Outcome)
    requires c.p > 0
    ensures r.Affine? <==> Invertible(c.p, 2 * a.y)
    ensures r.Affine? ==> forall l :: Tangent(c, a, l) ==>
              Cong(c.p, r.point.x, ThirdPoint(a, a.x, l).x) && Cong(c.p, r.point.y, ThirdPoint(a, a.x, l).y)
    ensures r.Affine? && OnCurve(c, a.x, a.y, 1) ==> OnCurve(c, r.point.x, r.point.y, 1)
  {
    hide Cong, OnCurve, Represents, Tangent, ThirdPoint, Inverse, DoubleX, DoubleY;
    AffineIsItself(c, a);
    var x3, y3, z3 := DoubleJacobian(c, a.x, a.y, 1);
    assert DoubleZ(a.y, 1) == 2 * a.y;
    r := AffineFromJacobian(c, x3, y3, z3);
    InverseSame(c.p, z3, 2 * a.y);
    if r.Affine? && OnCurve(c, x3, y3, z3) {
      ghost var k :| Inverse(c.p, z3, k);
      AffineOnCurve(c, x3, y3, z3, k, r.point);
    }
  }

  lemma BaseOnCurve()
    ensures OnCurve(SECP256K1, BASE_POINT.x, BASE_POINT.y, 1)
  {
    var x, y, p := BASE_POINT.x, BASE_POINT.y, SECP256K1.p;
    ReducedEqual(p, y * y, x * x * x + 7);
    assert (x * x * x + 7) % p == y * y % p;
    assert Square(Cube(1)) == 1;
  }

  /** Adding the base point to itself panics. */
  method AddBaseTwice() returns (r: Outcome)
    ensures r == Panic
  {
    hide Cong, OnCurve, Represents, Chord, ThirdPoint, Invertible;
    Same(SECP256K1.p, 0);
    r := Add(SECP256K1, BASE_POINT, BASE_POINT);
  }
}
