/** Congruence of integers modulo p, as big-integer code with intermediate reductions needs it. */
module Congruence {

  function Times(k: int, p: int): int {
    k * p
  }

  ghost predicate Cong(p: int, a: int, b: int) {
    exists k :: a - b == Times(k, p)
  }

  lemma Witness(p: int, a: int, b: int, k: int)
    requires a - b == k * p
    ensures Cong(p, a, b)
  {
    assert a - b == Times(k, p);
  }

  lemma Same(p: int, a: int)
    ensures Cong(p, a, a)
  {
    Witness(p, a, a, 0);
  }

  lemma Reduced(p: int, a: int)
    requires p > 0
    ensures Cong(p, a % p, a) && 0 <= a % p < p
  {
    Witness(p, a % p, a, -(a / p));
  }

  lemma Symmetric(p: int, a: int, b: int)
    requires Cong(p, a, b)
    ensures Cong(p, b, a)
  {
    var k :| a - b == Times(k, p);
    Witness(p, b, a, -k);
  }

  lemma Transitive(p: int, a: int, b: int, c: int)
    requires Cong(p, a, b) && Cong(p, b, c)
    ensures Cong(p, a, c)
  {
    var k :| a - b == Times(k, p);
    var l :| b - c == Times(l, p);
    Distribute(k, l, p);
    Witness(p, a, c, k + l);
  }

  lemma Distribute(k: int, l: int, p: int)
    ensures (k + l) * p == k * p + l * p
  {
  }

  lemma Plus(p: int, a: int, b: int, c: int, d: int)
    requires Cong(p, a, b) && Cong(p, c, d)
    ensures Cong(p, a + c, b + d)
  {
    var k :| a - b == Times(k, p);
    var l :| c - d == Times(l, p);
    Distribute(k, l, p);
    Witness(p, a + c, b + d, k + l);
  }

  lemma Minus(p: int, a: int, b: int, c: int, d: int)
    requires Cong(p, a, b) && Cong(p, c, d)
    ensures Cong(p, a - c, b - d)
  {
    var k :| a - b == Times(k, p);
    var l :| c - d == Times(l, p);
    Distribute(k, -l, p);
    Witness(p, a - c, b - d, k - l);
  }

  lemma Scale(p: int, a: int, b: int, c: int)
    requires Cong(p, a, b)
    ensures Cong(p, a * c, b * c)
  {
    var k :| a - b == Times(k, p);
    calc {
      a * c - b * c;
      (a - b) * c;
      k * p * c;
      (k * c) * p;
    }
    Witness(p, a * c, b * c, k * c);
  }

  lemma Mul(p: int, a: int, b: int, c: int, d: int)
    requires Cong(p, a, b) && Cong(p, c, d)
    ensures Cong(p, a * c, b * d)
  {
    Scale(p, a, b, c);
    Scale(p, c, d, b);
    assert a * c == a * c && c * b == b * c && d * b == b * d;
    Transitive(p, a * c, b * c, b * d);
  }

  lemma Shift(p: int, a: int, b: int)
    requires Cong(p, a, b)
    ensures Cong(p, a + p, b)
  {
    var k :| a - b == Times(k, p);
    Distribute(k, 1, p);
    Witness(p, a + p, b, k + 1);
  }

  /** The canonical representative decides congruence. */
  lemma ReducedEqual(p: int, a: int, b: int)
    requires p > 0
    ensures Cong(p, a, b) <==> a % p == b % p
  {
    if Cong(p, a, b) {
      var k :| a - b == Times(k, p);
      Unique(p, a, b, k);
    } else {
      Reduced(p, a);
      Reduced(p, b);
      Symmetric(p, a % p, a);
      if a % p == b % p {
        Transitive(p, a, a % p, b);
      }
    }
  }

  lemma Unique(p: int, a: int, b: int, k: int)
    requires p > 0 && a - b == k * p
    ensures a % p == b % p
  {
    var d := a % p - b % p;
    var q := k - a / p + b / p;
    assert a == (a / p) * p + a % p;
    assert b == (b / p) * p + b % p;
    assert d == q * p by {
      calc {
        q * p;
        k * p - (a / p) * p + (b / p) * p;
        a - b - (a / p) * p + (b / p) * p;
        d;
      }
    }
    Far(q, p);
  }

  lemma Far(q: int, p: int)
    requires p > 0
    ensures q > 0 ==> q * p >= p
    ensures q < 0 ==> q * p <= -p
  {
  }
}
