/** Numbers as lists of 32-bit limbs, the least significant first. */
module Limbs {
  import opened Powers

  const BASE: nat := 0x1_0000_0000

  type Limb = x: int | 0 <= x < 0x1_0000_0000

  ghost function Value(s: seq<Limb>): nat {
    if s == [] then 0 else Value(s[..|s| - 1]) + s[|s| - 1] * Pow(BASE, |s| - 1)
  }

  lemma ValueNext(s: seq<Limb>, i: nat)
    requires i < |s|
    ensures Value(s[..i + 1]) == Value(s[..i]) + s[i] * Pow(BASE, i)
  {
    hide Pow;
    assert s[..i + 1][..i] == s[..i];
  }

  lemma {:induction false} ValueBound(s: seq<Limb>)
    ensures Value(s) < Pow(BASE, |s|)
  {
    if s != [] {
      var n := |s| - 1;
      ValueBound(s[..n]);
      Gap(s[n], BASE, Pow(BASE, n));
    }
  }

  lemma {:induction false} ValueSplit(s: seq<Limb>, i: nat)
    requires i <= |s|
    ensures Value(s) == Value(s[..i]) + Pow(BASE, i) * Value(s[i..])
  {
    hide Pow;
    if |s| == i {
      assert s[..i] == s;
    } else {
      var n := |s| - 1;
      ValueSplit(s[..n], i);
      assert s[..n][..i] == s[..i];
      assert s[i..][..n - i] == s[..n][i..];
      PowAdd(BASE, i, n - i);
      Distribute(Pow(BASE, i), Value(s[..n][i..]), s[n] * Pow(BASE, n - i));
      Swap(s[n], Pow(BASE, i), Pow(BASE, n - i));
    }
  }

  lemma Swap(a: int, b: int, c: int)
    ensures a * (b * c) == b * (a * c)
  {
  }

  lemma {:induction false} ValueSet(s: seq<Limb>, i: nat, v: Limb)
    requires i < |s|
    ensures Value(s[i := v]) == Value(s) + (v - s[i]) * Pow(BASE, i)
  {
    hide Pow;
    var n := |s| - 1;
    if i == n {
      assert s[i := v][..n] == s[..n];
      Distribute(Pow(BASE, i), v - s[i], s[i]);
    } else {
      assert s[i := v][..n] == s[..n][i := v];
      ValueSet(s[..n], i, v);
    }
  }

  lemma {:induction false} ValueZeros(s: seq<Limb>)
    requires forall k :: 0 <= k < |s| ==> s[k] == 0
    ensures Value(s) == 0
  {
    if s != [] {
      ValueZeros(s[..|s| - 1]);
    }
  }

  /** A non-zero leading limb alone decides the size of a number. */
  lemma ValueLeading(s: seq<Limb>, i: nat)
    requires i < |s| && forall k :: i < k < |s| ==> s[k] == 0
    ensures s[i] * Pow(BASE, i) <= Value(s) < s[i] * Pow(BASE, i) + Pow(BASE, i)
  {
    hide Pow;
    ValueSplit(s, i + 1);
    ValueZeros(s[i + 1..]);
    assert Pow(BASE, i + 1) * 0 == 0;
    ValueNext(s, i);
    ValueBound(s[..i]);
  }

  /** Two numbers compare as their highest different limbs do. */
  lemma ValueCompare(s: seq<Limb>, t: seq<Limb>, i: nat)
    requires i < |s| == |t| && s[i] < t[i] && s[i + 1..] == t[i + 1..]
    ensures Value(s) < Value(t)
  {
    hide Pow;
    ValueSplit(s, i + 1);
    ValueSplit(t, i + 1);
    ValueNext(s, i);
    ValueNext(t, i);
    ValueBound(s[..i]);
    Gap(s[i], t[i], Pow(BASE, i));
  }

  // ---------- Bits of a limb ----------

  /** Bitwise or. */
  function Or(x: nat, y: nat): nat
    decreases x + y
  {
    if x == 0 && y == 0 then 0
    else 2 * Or(x / 2, y / 2) + if x % 2 == 1 || y % 2 == 1 then 1 else 0
  }

  lemma {:induction false} OrZero(x: nat)
    ensures Or(x, 0) == x
  {
    if x > 0 {
      OrZero(x / 2);
    }
  }

  /** Where no bit can be set in both, or adds. */
  lemma {:induction false} OrDisjoint(x: nat, m: nat, y: nat, k: nat)
    requires x == m * Pow(2, k) && y < Pow(2, k)
    ensures Or(x, y) == Or(y, x) == x + y
  {
    if k == 0 {
      OrZero(x);
      OrSym(x, 0);
    } else {
      Swap(m, 2, Pow(2, k - 1));
      OrDisjoint(m * Pow(2, k - 1), m, y / 2, k - 1);
      assert x / 2 == m * Pow(2, k - 1);
    }
  }

  lemma {:induction false} OrSym(x: nat, y: nat)
    ensures Or(x, y) == Or(y, x)
    decreases x + y
  {
    if x != 0 || y != 0 {
      OrSym(x / 2, y / 2);
    }
  }

  lemma PowersOfBase(n: nat)
    ensures Pow(2, 32) == BASE && Pow(BASE, n) == Pow(2, 32 * n)
  {
    assert Pow(2, 8) == 256;
    PowAdd(2, 8, 8);
    PowAdd(2, 16, 16);
    PowPow(2, 32, n);
  }

  function Shl(x: Limb, s: nat): Limb {
    (x * Pow(2, s)) % 0x1_0000_0000
  }

  function Shr(x: Limb, s: nat): (r: Limb)
    ensures r <= x
  {
    Shrinks(x, Pow(2, s));
    x / Pow(2, s)
  }

  lemma Shrinks(x: nat, m: nat)
    requires m > 0
    ensures 0 <= x / m <= x
  {
    Parts(x, m);
    Enlarges(x / m, m);
  }

  /** What a left shift drops from a limb is what the opposite right shift keeps. */
  lemma ShlShr(x: Limb, s: nat)
    requires s <= 32
    ensures x * Pow(2, s) == Shl(x, s) + Shr(x, 32 - s) * BASE
    ensures Shl(x, s) == (x % Pow(2, 32 - s)) * Pow(2, s)
    ensures Shl(x, s) + Pow(2, s) <= BASE && Shr(x, 32 - s) < Pow(2, s)
  {
    hide Pow;
    PowersOfBase(0);
    PowAdd(2, s, 32 - s);
    var p, q := Pow(2, s), Pow(2, 32 - s);
    SplitShift(x, p, q);
  }

  lemma SplitShift(x: nat, p: nat, q: nat)
    requires p > 0 && q > 0 && x < p * q
    ensures x * p == ((x % q) * p) + (x / q) * (p * q)
    ensures (x * p) % (p * q) == (x % q) * p
    ensures (x % q) * p + p <= p * q && x / q < p
  {
    var h, l := x / q, x % q;
    Parts(x, q);
    Distribute(p, h * q, l);
    Swap(p, h, q);
    Gap(l, q, p);
    assert x * p == h * (p * q) + l * p;
    assert l * p < p * q by { assert p * q == q * p; }
    Divides(x * p, p * q, h, l * p);
    if h >= p {
      MulMonotone(p, q, h, q);
      assert false;
    }
  }
}
