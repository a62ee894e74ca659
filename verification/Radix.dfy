/** Numbers as lists of digits in some base, the most significant first, and a conversion
  * between bases that works in place in a buffer of digits.
  */
module Radix {
  import opened Powers

  type Byte = x: int | 0 <= x < 256

  ghost function Val(base: nat, s: seq<Byte>): nat {
    if s == [] then 0 else Val(base, s[..|s| - 1]) * base + s[|s| - 1]
  }

  /** The digits of a number without leading zeros. */
  ghost function DigitsOf(base: nat, v: nat): seq<Byte>
    requires 2 <= base <= 256
  {
    if v == 0 then [] else DigitsOf(base, v / base) + [v % base]
  }

  ghost predicate AllBelow(base: nat, s: seq<Byte>) {
    forall k :: 0 <= k < |s| ==> s[k] < base
  }

  /** Proper digits, the first of them not zero. */
  ghost predicate Canonical(base: nat, s: seq<Byte>) {
    AllBelow(base, s) && (s != [] ==> s[0] != 0)
  }

  lemma ValAppend(base: nat, s: seq<Byte>, d: Byte)
    ensures Val(base, s + [d]) == Val(base, s) * base + d
  {
    assert (s + [d])[..|s|] == s;
  }

  lemma Shrinks(x: nat, m: nat)
    requires m > 0
    ensures 0 <= x / m <= x
  {
    Parts(x, m);
    Enlarges(x / m, m);
  }

  lemma {:induction false} ValDigits(base: nat, v: nat)
    requires 2 <= base <= 256
    ensures Val(base, DigitsOf(base, v)) == v && Canonical(base, DigitsOf(base, v))
    ensures DigitsOf(base, v) == [] <==> v == 0
  {
    hide Val, Canonical;
    if v == 0 {
      NoDigits(base);
    } else {
      DivMonotone(v, v, base);
      ValDigits(base, v / base);
      Parts(v, base);
      ValAppend(base, DigitsOf(base, v / base), v % base);
      CanonicalAppend(base, DigitsOf(base, v / base), v % base);
      LastDigit(v, base);
    }
  }

  lemma NoDigits(base: nat)
    ensures Val(base, []) == 0 && Canonical(base, [])
  {
  }

  lemma CanonicalAppend(base: nat, s: seq<Byte>, d: Byte)
    requires Canonical(base, s) && d < base
    ensures s != [] || d != 0 ==> Canonical(base, s + [d])
  {
  }

  lemma LastDigit(v: nat, base: nat)
    requires v > 0 && base > 0
    ensures v / base == 0 ==> v % base != 0
  {
    Parts(v, base);
  }

  lemma {:induction false} CanonicalPositive(base: nat, s: seq<Byte>)
    requires base > 0 && Canonical(base, s) && s != []
    ensures Val(base, s) > 0
  {
    var n := |s| - 1;
    if n > 0 {
      CanonicalPositive(base, s[..n]);
      Enlarges(Val(base, s[..n]), base);
    }
  }

  /** Digits without a leading zero are the digits of their number. */
  lemma {:induction false} DigitsVal(base: nat, s: seq<Byte>)
    requires 2 <= base <= 256 && Canonical(base, s)
    ensures DigitsOf(base, Val(base, s)) == s
  {
    if s != [] {
      var n := |s| - 1;
      DigitsVal(base, s[..n]);
      CanonicalPositive(base, s);
      Divides(Val(base, s), base, Val(base, s[..n]), s[n]);
    }
  }

  lemma {:induction false} ValBound(base: nat, s: seq<Byte>)
    requires AllBelow(base, s) && base > 0
    ensures Val(base, s) < Pow(base, |s|)
  {
    if s != [] {
      var n := |s| - 1;
      ValBound(base, s[..n]);
      Gap(Val(base, s[..n]), Pow(base, n), base);
    }
  }

  /** Taking the leading digit off. */
  lemma {:induction false} ValLeading(base: nat, s: seq<Byte>)
    requires s != []
    ensures Val(base, s) == s[0] * Pow(base, |s| - 1) + Val(base, s[1..])
  {
    var n := |s| - 1;
    if n == 0 {
      assert s[..0] == [] && s[1..] == [];
    } else {
      ValLeading(base, s[..n]);
      assert s[..n][1..] == s[1..][..n - 1];
      LeadingStep(base, s[0], Pow(base, n - 1), Val(base, s[1..][..n - 1]));
    }
  }

  lemma LeadingStep(base: nat, d: nat, p: nat, v: nat)
    ensures (d * p + v) * base == d * (base * p) + v * base
  {
    Distribute(base, d * p, v);
    Assoc(d, p, base);
  }

  /** Leading zeros do not count. */
  lemma {:induction false} ValZeros(base: nat, s: seq<Byte>, k: nat)
    requires k <= |s| && forall j :: 0 <= j < k ==> s[j] == 0
    ensures Val(base, s) == Val(base, s[k..])
    decreases k
  {
    hide Pow;
    if k == 0 {
      assert s[0..] == s;
    } else {
      ValLeading(base, s);
      ValZeros(base, s[1..], k - 1);
      assert s[1..][k - 1..] == s[k..];
      assert 0 * Pow(base, |s| - 1) == 0;
    }
  }

  lemma {:induction false} DigitsMonotone(base: nat, v: nat, w: nat)
    requires 2 <= base <= 256 && v <= w
    ensures |DigitsOf(base, v)| <= |DigitsOf(base, w)|
    decreases w
  {
    if v > 0 {
      DivMonotone(v, w, base);
      DigitsMonotone(base, v / base, w / base);
    }
  }

  lemma DivMonotone(v: nat, w: nat, base: nat)
    requires 2 <= base && v <= w
    ensures 0 <= v / base <= w / base && (w > 0 ==> w / base < w)
  {
    Shrinks(v, base);
    Shrinks(w, base);
    QuotientOrder(v, v / base, v % base, w, w / base, w % base, base);
  }

  lemma QuotientOrder(v: nat, q: nat, r: nat, w: nat, q': nat, r': nat, base: nat)
    requires 2 <= base && v == q * base + r && w == q' * base + r' && r < base && r' < base && v <= w
    ensures q <= q' && (w > 0 ==> q' < w)
  {
    if q' < q {
      Gap(q', q, base);
    }
    MulMonotone(q', 2, q', base);
  }

  lemma {:induction false} ValPrefix(base: nat, s: seq<Byte>, k: nat)
    requires base > 0 && k <= |s|
    ensures Val(base, s[..k]) <= Val(base, s)
  {
    if k == |s| {
      assert s[..k] == s;
    } else {
      var n := |s| - 1;
      ValPrefix(base, s[..n], k);
      assert s[..n][..k] == s[..k];
      Enlarges(Val(base, s[..n]), base);
    }
  }

  // ---------- In place ----------

  /** The buffer holds the digits of a number at its end, and zeros before them. */
  ghost predicate Holds(base: nat, b: seq<Byte>, length: nat, v: nat)
    requires 2 <= base <= 256
  {
    && length <= |b|
    && (forall k :: 0 <= k < |b| - length ==> b[k] == 0)
    && b[|b| - length..] == DigitsOf(base, v)
  }

  /** Replace the number `v` in the buffer by `v * times + plus`, with the carry running from
    * the last digit while there is one or digits are left. The buffer must have room for the
    * result; then no carry is left over.
    */
  method Absorb(b: array<Byte>, base: nat, length: nat, times: nat, plus: nat, ghost v: nat) returns (i: nat)
    requires 2 <= base <= 256 && 0 < times && Holds(base, b[..], length, v)
    requires length <= b.Length && v * times + plus < Pow(base, b.Length)
    modifies b
    ensures Holds(base, b[..], i, v * times + plus)
    ensures length <= i
  {
    hide Pow, Val, DigitsOf, Canonical, Pending, AllBelow, Holds;
    ghost var x := b[..];
    ghost var size := |x|;
    var carry := plus;
    i := 0;
    BeforeCarry(base, x, length, v, times);
    while (carry != 0 || i < length) && i < b.Length
      invariant 0 <= i <= b.Length && carry >= 0
      invariant b[..b.Length - i] == x[..size - i]
      invariant Pending(base, x, b[..], i, carry, times, plus)
      invariant i >= length && i > 0 ==> b[b.Length - i] != 0 || carry != 0
      decreases b.Length - i
    {
      var k := b.Length - 1 - i;
      ghost var y := b[..];
      assert b[k] == x[k];
      ghost var carryIn := carry;
      carry := carry + times * b[k];
      b[k] := carry % base;
      Shrinks(carry, base);
      Carried(base, x, y, i, carryIn, times, plus, carry, b[k], carry / base);
      assert b[..] == y[k := b[k]];
      TopNonzero(base, x, length, v, times, carry, carryIn, i);
      carry := carry / base;
      i := i + 1;
    }
    CarryGone(base, x, b[..], length, v, times, plus, i, carry);
    assert carry == 0;
  }

  /** The last `i` digits have been rewritten and `carry` is still to be added before them. */
  ghost predicate Pending(base: nat, x: seq<Byte>, b: seq<Byte>, i: nat, carry: nat, times: nat, plus: nat) {
    && i <= |x| == |b|
    && AllBelow(base, b[|b| - i..])
    && Val(base, b[|b| - i..]) + carry * Pow(base, i) == Val(base, x[|x| - i..]) * times + plus
  }

  lemma BeforeCarry(base: nat, x: seq<Byte>, length: nat, v: nat, times: nat)
    requires 2 <= base <= 256 && Holds(base, x, length, v)
    ensures forall plus: nat {:trigger Pending(base, x, x, 0, plus, times, plus)} :: Pending(base, x, x, 0, plus, times, plus)
  {
    assert x[|x|..] == [];
  }

  lemma Carried(base: nat, x: seq<Byte>, y: seq<Byte>, i: nat, carry: nat, times: nat, plus: nat, t: nat, digit: Byte, out: nat)
    requires 2 <= base <= 256 && i < |x| && Pending(base, x, y, i, carry, times, plus)
    requires t == carry + times * x[|x| - 1 - i] && digit == t % base && out == t / base
    ensures Pending(base, x, y[|x| - 1 - i := digit], i + 1, out, times, plus)
  {
    hide Pow, Val;
    var k := |x| - 1 - i;
    var z := y[k := digit];
    ValLeading(base, z[k..]);
    ValLeading(base, x[k..]);
    assert z[k..][1..] == y[k + 1..];
    assert x[k..][1..] == x[k + 1..];
    CarrySum(base, carry, times, x[k], Pow(base, i), Val(base, x[k + 1..]));
    PowUp(base, i);
    assert forall j :: 0 < j < i + 1 ==> z[k..][j] == y[k + 1..][j - 1];
  }

  lemma PowUp(base: nat, i: nat)
    ensures Pow(base, i + 1) == base * Pow(base, i)
  {
  }

  lemma CarrySum(base: nat, carry: nat, times: nat, d: nat, p: nat, rest: nat)
    requires base > 0
    ensures var t := carry + times * d;
      (t % base) * p + (t / base) * (base * p) + rest * times == (d * p + rest) * times + carry * p
  {
    var t := carry + times * d;
    Parts(t, base);
    Assoc(t / base, base, p);
    Distribute(p, (t / base) * base, t % base);
    Distribute(p, carry, times * d);
    Distribute(times, d * p, rest);
    Assoc(times, d, p);
  }

  /** The leading digit written is not zero, or a carry follows it. */
  lemma TopNonzero(base: nat, x: seq<Byte>, length: nat, v: nat, times: nat, t: nat, carry: nat, i: nat)
    requires 2 <= base <= 256 && 0 < times && Holds(base, x, length, v) && i < |x|
    requires t == carry + times * x[|x| - 1 - i] && (carry != 0 || i < length)
    ensures i + 1 >= length ==> t % base != 0 || t / base != 0
  {
    hide Pow, Val, DigitsOf;
    ValDigits(base, v);
    if i + 1 == length {
      assert x[|x| - length..][0] != 0;
      Enlarges(x[|x| - 1 - i], times);
    }
    if t != 0 { Parts(t, base); }
  }

  lemma CarryGone(base: nat, x: seq<Byte>, b: seq<Byte>, length: nat, v: nat, times: nat, plus: nat, i: nat, carry: nat)
    requires 2 <= base <= 256 && length <= |x| && Holds(base, x, length, v) && v * times + plus < Pow(base, |x|)
    requires i <= |x| == |b| && Pending(base, x, b, i, carry, times, plus) && b[..|b| - i] == x[..|x| - i]
    requires i >= length && i > 0 ==> b[|b| - i] != 0 || carry != 0
    requires !((carry != 0 || i < length) && i < |x|)
    ensures carry == 0 && i >= length
    ensures Holds(base, b, i, v * times + plus)
  {
    hide Pow, Val, DigitsOf, Pending, AllBelow, Holds;
    var low := b[|x| - i..];
    var total := v * times + plus;
    Absorbed(base, x, length, v, i);
    PendingTotal(base, x, b, i, carry, times, plus, v);
    Spent(Val(base, low), carry, Pow(base, i), total, i, |x|, base);
    HoldsResult(base, x, length, v, b, i, total);
  }

  lemma PendingTotal(base: nat, x: seq<Byte>, b: seq<Byte>, i: nat, carry: nat, times: nat, plus: nat, v: nat)
    requires Pending(base, x, b, i, carry, times, plus) && Val(base, x[|x| - i..]) == v
    ensures AllBelow(base, b[|b| - i..])
    ensures Val(base, b[|b| - i..]) + carry * Pow(base, i) == v * times + plus
  {
    hide Pow, Val, AllBelow;
  }

  lemma HoldsResult(base: nat, x: seq<Byte>, length: nat, v: nat, b: seq<Byte>, i: nat, total: nat)
    requires 2 <= base <= 256 && Holds(base, x, length, v) && length <= i <= |x| == |b| && b[..|b| - i] == x[..|x| - i]
    requires AllBelow(base, b[|b| - i..]) && Val(base, b[|b| - i..]) == total && (i > 0 ==> b[|b| - i] != 0)
    ensures Holds(base, b, i, total)
  {
    hide Pow, Val, DigitsOf;
    DigitsVal(base, b[|b| - i..]);
    assert forall k :: 0 <= k < |b| - i ==> b[k] == b[..|b| - i][k];
  }

  /** All digits of the number are among the last `i`. */
  lemma Absorbed(base: nat, x: seq<Byte>, length: nat, v: nat, i: nat)
    requires 2 <= base <= 256 && Holds(base, x, length, v) && length <= i <= |x|
    ensures Val(base, x[|x| - i..]) == v
  {
    hide Val, DigitsOf;
    var size := |x|;
    ValDigits(base, v);
    ValZeros(base, x[size - i..], i - length);
    assert x[size - i..][i - length..] == x[size - length..];
  }

  lemma Spent(low: nat, carry: nat, p: nat, total: nat, i: nat, size: nat, base: nat)
    requires low + carry * p == total < Pow(base, size) && p == Pow(base, i) && (carry != 0 ==> i == size)
    ensures carry == 0 && low == total
  {
    hide Pow;
    if carry != 0 {
      Enlarges(p, carry);
    }
  }
}
