/** What shifting limb by limb does to the number the limbs stand for. */
module LimbShifts {
  import opened Powers
  import opened Limbs

  /** What the limbs below `i` of `x` have put into limb `j` of a left shift by `32 * k + s`. */
  ghost function LeftPart(x: seq<Limb>, s: nat, k: nat, i: nat, j: nat): nat
    requires i <= |x| && s < 32
  {
    (if k <= j < i + k then Shl(x[j - k], s) else 0) + if k < j < i + k + 1 then Shr(x[j - k - 1], 32 - s) else 0
  }

  /** What the limbs below `i` of `x` have put into limb `j` of a right shift by `32 * k + s`. */
  ghost function RightPart(x: seq<Limb>, s: nat, k: nat, i: nat, j: nat): nat
    requires i <= |x| && s < 32
  {
    (if j + k < i then Shr(x[j + k], s) else 0) + if j + k + 1 < i then Shl(x[j + k + 1], 32 - s) else 0
  }

  lemma ShrShl(x: Limb, s: nat)
    requires s < 32
    ensures Shr(x, s) < Pow(2, 32 - s)
    ensures Shl(x, 32 - s) == (x % Pow(2, s)) * Pow(2, 32 - s)
    ensures Shl(x, 32 - s) * Pow(2, s) == (x % Pow(2, s)) * BASE
    ensures Shl(x, 32 - s) + Pow(2, 32 - s) <= BASE
  {
    hide Pow, Shl, Shr;
    ShlShr(x, 32 - s);
    PowersOfBase(0);
    PowAdd(2, 32 - s, s);
    Assoc(x % Pow(2, s), Pow(2, 32 - s), Pow(2, s));
  }

  lemma NoShift(x: Limb)
    ensures Shl(x, 32) == 0 && Shr(x, 32) == 0 && Pow(2, 0) == 1
  {
    hide Shl, Shr;
    ShlShr(x, 0);
    ShrShl(x, 0);
  }

  // ---------- Left ----------

  /** The digits of a left shift within a limb, with the bits pushed out at the top. */
  lemma {:induction false} LeftDigits(x: seq<Limb>, d: seq<Limb>, s: nat, m: nat)
    requires s < 32 && m <= |x| && m <= |d|
    requires forall j :: 0 <= j < m ==> d[j] == LeftPart(x, s, 0, |x|, j)
    ensures m == 0 ==> Value(d[..m]) == 0
    ensures m > 0 ==> Value(d[..m]) + Shr(x[m - 1], 32 - s) * Pow(BASE, m) == Value(x[..m]) * Pow(2, s)
  {
    hide Pow, Shl, Shr;
    if m > 0 {
      var n := m - 1;
      LeftDigits(x, d, s, n);
      ValueNext(d, n);
      ValueNext(x, n);
      ShlShr(x[n], s);
      LeftStep(Shl(x[n], s), Shr(x[n], 32 - s), if n > 0 then Shr(x[n - 1], 32 - s) else 0, x[n], Pow(2, s), n);
      Distribute(Pow(2, s), Value(x[..n]), x[n] * Pow(BASE, n));
    }
  }

  lemma LeftStep(low: nat, high: nat, under: nat, v: nat, p: nat, n: nat)
    requires v * p == low + high * BASE
    ensures (low + under) * Pow(BASE, n) + high * Pow(BASE, n + 1) == p * (v * Pow(BASE, n)) + under * Pow(BASE, n)
  {
    var b := Pow(BASE, n);
    assert Pow(BASE, n + 1) == BASE * b;
    LeftProduct(low, high, under, v, p, b);
  }

  lemma LeftProduct(low: nat, high: nat, under: nat, v: nat, p: nat, b: nat)
    requires v * p == low + high * BASE
    ensures (low + under) * b + high * (BASE * b) == p * (v * b) + under * b
  {
    Distribute(b, low, under);
    Assoc(high, BASE, b);
    Assoc(p, v, b);
    Distribute(b, low, high * BASE);
  }

  /** All limbs of `x` moved up by `k` limbs and `s` bits, with what falls off the top lost. */
  lemma LeftValue(x: seq<Limb>, d: seq<Limb>, s: nat, k: nat)
    requires s < 32 && |d| == |x| && forall j :: 0 <= j < |x| ==> d[j] == LeftPart(x, s, k, |x|, j)
    ensures Value(d) == (Value(x) * Pow(2, 32 * k + s)) % Pow(BASE, |x|)
  {
    hide Pow, Shl, Shr;
    var w := |x|;
    PowAdd(2, 32 * k, s);
    PowersOfBase(k);
    if k >= w {
      ValueZeros(d);
      PowAdd(BASE, w, k - w);
      AllLost(Value(x), Pow(BASE, w), Pow(BASE, k - w), Pow(2, s));
    } else {
      var e := d[k..];
      var m := w - k;
      forall j | 0 <= j < m ensures e[j] == LeftPart(x, s, 0, w, j) {
        assert d[j + k] == LeftPart(x, s, k, w, j + k);
      }
      LeftDigits(x, e, s, m);
      assert e[..m] == e;
      ValueSplit(d, k);
      ValueZeros(d[..k]);
      ValueSplit(x, m);
      ValueBound(d);
      PowAdd(BASE, k, m);
      TopLost(Value(d), Value(e), Shr(x[m - 1], 32 - s), Value(x[..m]), Value(x[m..]), Pow(2, s), Pow(BASE, k), Pow(BASE, m));
    }
  }

  lemma AllLost(v: nat, b: nat, c: nat, p: nat)
    requires b > 0
    ensures (v * ((b * c) * p)) % b == 0
  {
    Assoc(b, c, p);
    Swap(v, b, c * p);
    assert v * ((b * c) * p) == (v * (c * p)) * b + 0;
    Divides(v * ((b * c) * p), b, v * (c * p), 0);
  }

  lemma TopLost(d: nat, e: nat, high: nat, low: nat, rest: nat, p: nat, bk: nat, bm: nat)
    requires d == bk * e && e + high * bm == low * p && d < bk * bm
    ensures d == ((low + bm * rest) * (bk * p)) % (bk * bm)
  {
    var q := high + rest * p;
    calc {
      (low + bm * rest) * (bk * p);
      { Swap(low + bm * rest, bk, p); Distribute(p, low, bm * rest); }
      bk * (low * p + (bm * rest) * p);
      { assert low * p == e + high * bm; Assoc(bm, rest, p); Distribute(bm, high, rest * p); }
      bk * (e + bm * q);
      { Distribute(bk, e, bm * q); Assoc(bk, bm, q); }
      q * (bk * bm) + d;
    }
    Divides((low + bm * rest) * (bk * p), bk * bm, q, d);
  }

  // ---------- Right ----------

  /** The bits a right shift moves out of limb `m`. */
  ghost function Out(x: seq<Limb>, s: nat, m: nat): nat {
    if m < |x| then x[m] % Pow(2, s) else 0
  }

  /** The digits of a right shift within a limb, with the bits dropped at the bottom. */
  lemma {:induction false} RightDigits(x: seq<Limb>, d: seq<Limb>, s: nat, m: nat)
    requires s < 32 && m <= |x| && m <= |d|
    requires forall j :: 0 <= j < m ==> d[j] == RightPart(x, s, 0, |x|, j)
    ensures Value(d[..m]) * Pow(2, s) + Out(x, s, 0) == Value(x[..m]) + Out(x, s, m) * Pow(BASE, m)
  {
    hide Pow, Out, RightPart;
    if m == 0 {
      assert d[..m] == [] && x[..m] == [];
      PowStart();
    } else {
      var n := m - 1;
      RightDigits(x, d, s, n);
      ValueNext(d, n);
      ValueNext(x, n);
      RightDigit(x, d[n], s, n);
      Distribute(Pow(2, s), Value(d[..n]), d[n] * Pow(BASE, n));
    }
  }

  lemma RightDigit(x: seq<Limb>, d: Limb, s: nat, n: nat)
    requires s < 32 && n < |x| && d == RightPart(x, s, 0, |x|, n)
    ensures Pow(2, s) * (d * Pow(BASE, n)) + Out(x, s, n) * Pow(BASE, n) == x[n] * Pow(BASE, n) + Out(x, s, n + 1) * Pow(BASE, n + 1)
  {
    hide Pow, Shl, Shr;
    ShrParts(x[n], s);
    if n + 1 < |x| {
      ShrShl(x[n + 1], s);
      RightStep(d, Shr(x[n], s), Out(x, s, n), Out(x, s, n + 1), Shl(x[n + 1], 32 - s), x[n], Pow(2, s), n);
    } else {
      RightStep(d, Shr(x[n], s), Out(x, s, n), 0, 0, x[n], Pow(2, s), n);
    }
  }

  lemma PowStart()
    ensures Pow(BASE, 0) == 1
  {
  }

  lemma ShrParts(x: Limb, s: nat)
    ensures x == Shr(x, s) * Pow(2, s) + x % Pow(2, s)
  {
    Parts(x, Pow(2, s));
  }

  lemma RightStep(d: nat, h: nat, l: nat, up: nat, shifted: nat, v: nat, p: nat, n: nat)
    requires d == h + shifted && v == h * p + l && shifted * p == up * BASE
    ensures p * (d * Pow(BASE, n)) + l * Pow(BASE, n) == v * Pow(BASE, n) + up * Pow(BASE, n + 1)
  {
    var b := Pow(BASE, n);
    assert Pow(BASE, n + 1) == BASE * b;
    Assoc(p, d, b);
    Distribute(p, h, shifted);
    Distribute(b, h * p + l, up * BASE);
    Distribute(b, p * d, l);
    Assoc(up, BASE, b);
  }

  lemma RightValue(x: seq<Limb>, d: seq<Limb>, s: nat, k: nat)
    requires s < 32 && |d| == |x| && forall j :: 0 <= j < |x| ==> d[j] == RightPart(x, s, k, |x|, j)
    ensures Value(d) == Value(x) / Pow(2, 32 * k + s)
  {
    hide Pow, Shl, Shr;
    var w := |x|;
    PowAdd(2, 32 * k, s);
    PowersOfBase(k);
    if k >= w {
      ValueZeros(d);
      ValueBound(x);
      PowMonotone(BASE, w, k);
      Enlarges(Pow(BASE, k), Pow(2, s));
      Divides(Value(x), Pow(BASE, k) * Pow(2, s), 0, Value(x));
    } else {
      var y := x[k..];
      var m := w - k;
      forall j | 0 <= j < m ensures d[j] == RightPart(y, s, 0, m, j) {
        assert d[j] == RightPart(x, s, k, w, j);
      }
      RightDigits(y, d, s, m);
      assert y[..m] == y;
      ValueSplit(d, m);
      ValueZeros(d[m..]);
      assert Pow(BASE, m) * 0 == 0;
      ValueSplit(x, k);
      ValueBound(x[..k]);
      Parts(y[0], Pow(2, s));
      BottomLost(Value(x[..k]), Value(y), Value(d), y[0] % Pow(2, s), Pow(2, s), Pow(BASE, k));
    }
  }

  lemma BottomLost(low: nat, y: nat, d: nat, r: nat, p: nat, bk: nat)
    requires low < bk && y == d * p + r && r < p
    ensures (low + bk * y) / (bk * p) == d
  {
    Distribute(bk, d * p, r);
    Swap(bk, d, p);
    Gap(r, p, bk);
    assert low + bk * r < bk * p;
    Divides(low + bk * y, bk * p, d, low + bk * r);
  }
}
