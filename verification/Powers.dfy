/** Powers, and quotients recognised by their remainder. */
module Powers {
  function Pow(b: nat, n: nat): (p: nat)
    ensures b > 0 ==> p > 0
  {
    if n == 0 then 1 else b * Pow(b, n - 1)
  }

  lemma Assoc(a: int, b: int, c: int)
    ensures a * (b * c) == (a * b) * c
  {
  }

  lemma Distribute(a: int, b: int, c: int)
    ensures a * (b + c) == a * b + a * c
  {
  }

  lemma {:induction false} PowAdd(b: nat, m: nat, n: nat)
    ensures Pow(b, m + n) == Pow(b, m) * Pow(b, n)
  {
    if m > 0 {
      PowAdd(b, m - 1, n);
      assert m + n - 1 == (m - 1) + n;
      Assoc(b, Pow(b, m - 1), Pow(b, n));
    }
  }

  lemma {:induction false} PowPow(b: nat, m: nat, n: nat)
    ensures Pow(Pow(b, m), n) == Pow(b, m * n)
  {
    if n > 0 {
      PowPow(b, m, n - 1);
      PowAdd(b, m, m * (n - 1));
      Distribute(m, 1, n - 1);
    }
  }

  lemma {:induction false} PowMonotone(b: nat, m: nat, n: nat)
    requires b > 0 && m <= n
    ensures Pow(b, m) <= Pow(b, n)
  {
    PowAdd(b, m, n - m);
    Enlarges(Pow(b, m), Pow(b, n - m));
  }

  lemma Enlarges(a: nat, k: nat)
    requires k > 0
    ensures a <= a * k
  {
  }

  lemma {:induction false} PowBase(a: nat, b: nat, n: nat)
    requires a <= b
    ensures Pow(a, n) <= Pow(b, n)
  {
    if n > 0 {
      PowBase(a, b, n - 1);
      MulMonotone(a, Pow(a, n - 1), b, Pow(b, n - 1));
    }
  }

  lemma MulMonotone(a: nat, x: nat, b: nat, y: nat)
    requires a <= b && x <= y
    ensures a * x <= b * y
  {
    assert a * x <= a * y;
    assert a * y <= b * y;
  }

  /** A quotient and remainder are known by their equation. */
  lemma Divides(x: nat, m: nat, q: nat, r: nat)
    requires m > 0 && x == q * m + r && r < m
    ensures x / m == q && x % m == r
  {
    var q' := x / m;
    var r' := x % m;
    assert x == q' * m + r';
    if q' > q {
      Gap(q, q', m);
    } else if q > q' {
      Gap(q', q, m);
    }
  }

  lemma Gap(a: nat, b: nat, m: nat)
    requires a < b
    ensures a * m + m <= b * m
  {
    Distribute(m, a, 1);
    MulMonotone(a + 1, m, b, m);
  }

  lemma Parts(x: nat, m: nat)
    requires m > 0
    ensures x == (x / m) * m + x % m && x % m < m
  {
  }
}
