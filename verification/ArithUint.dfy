/** Fixed-width unsigned integers over 32-bit limbs, updated in place. Every operation is
  * related to plain integer arithmetic, for every width and every operand; an operand may be
  * the receiver itself.
  */
module ArithUint {
  import opened Powers
  import opened Limbs
  import opened LimbShifts

  const UINT64: nat := BASE * BASE

  class BaseUint {
    const pn: array<Limb>

    /** The number the limbs stand for. */
    ghost function Num(): nat
      reads pn
    {
      Value(pn[..])
    }

    /** Two to the number of bits. */
    ghost function Modulus(): nat {
      Pow(BASE, pn.Length)
    }

    constructor (width: nat)
      requires width > 0
      ensures fresh(pn) && pn.Length == width && Num() == 0
    {
      pn := new Limb[width](_ => 0);
      new;
      ValueZeros(pn[..]);
    }

    constructor Copy(b: BaseUint)
      ensures fresh(pn) && pn.Length == b.pn.Length && pn[..] == b.pn[..]
    {
      var limbs := b.pn[..];
      pn := new Limb[|limbs|](i requires 0 <= i < |limbs| => limbs[i]);
      new;
      assert pn[..] == limbs;
    }

    /** Assignment from another number. */
    method Assign(b: BaseUint)
      requires b.pn.Length == pn.Length
      modifies pn
      ensures pn[..] == old(b.pn[..])
    {
      ghost var source := b.pn[..];
      for i := 0 to pn.Length
        invariant pn[..i] == source[..i]
        invariant b.pn[i..] == source[i..]
      {
        assert b.pn[i] == source[i];
        pn[i] := b.pn[i];
      }
    }

    /** Assignment from a 64-bit word; it writes two limbs. */
    method AssignWord(b: nat)
      requires b < UINT64 && pn.Length >= 2
      modifies pn
      ensures Num() == b
    {
      pn[0] := b % BASE;
      pn[1] := b / BASE;
      for i := 2 to pn.Length
        invariant pn[0] == b % BASE && pn[1] == b / BASE
        invariant forall k :: 2 <= k < i ==> pn[k] == 0
      {
        pn[i] := 0;
      }
      ValueLow(pn[..]);
      ValueZeros(pn[2..]);
      assert pn[2..] == pn[..][2..];
      Parts(b, BASE);
    }

    method Add(b: BaseUint)
      requires b.pn.Length == pn.Length
      modifies pn
      ensures Num() == (old(Num()) + old(b.Num())) % Modulus()
    {
      hide Pow, Value;
      ghost var x, y := pn[..], b.pn[..];
      var carry := 0;
      ValueNone(pn[..0], 0);
      ValueNone(x[..0], 0);
      ValueNone(y[..0], 0);
      for i := 0 to pn.Length
        invariant 0 <= carry <= 1
        invariant forall k :: i <= k < pn.Length ==> pn[k] == x[k] && b.pn[k] == y[k]
        invariant Value(pn[..i]) + carry * Pow(BASE, i) == Value(x[..i]) + Value(y[..i])
      {
        ghost var before := pn[..i];
        var n := carry + pn[i] + b.pn[i];
        assert n < UINT64;
        AddStep(x, y, before, carry, n);
        pn[i] := n % BASE;
        carry := n / BASE;
        assert pn[..i + 1] == before + [n % BASE];
      }
      ghost var w := pn.Length;
      assert pn[..w] == pn[..] && x[..w] == x && y[..w] == y;
      Wraps(pn[..], carry, Value(x) + Value(y));
    }

    /** The two's complement, in a new object. */
    method Negate() returns (ret: BaseUint)
      requires pn.Length > 0
      ensures fresh(ret) && fresh(ret.pn) && ret.pn.Length == pn.Length
      ensures Num() != 0 ==> ret.Num() == Modulus() - Num()
      ensures Num() == 0 ==> ret.Num() == 0
    {
      hide Pow, Value;
      ret := new BaseUint(pn.Length);
      ghost var x := pn[..];
      for i := 0 to pn.Length
        invariant pn[..] == x
        invariant forall k :: 0 <= k < i ==> ret.pn[k] as int == BASE - 1 - x[k]
      {
        ret.pn[i] := BASE - 1 - pn[i];
      }
      Complemented(x, ret.pn[..]);
      ret.Increment();
      ValueBound(pn[..]);
      NegateModulo(Num(), Modulus());
    }

    method Sub(b: BaseUint)
      requires b.pn.Length == pn.Length > 0
      modifies pn
      ensures Num() == (old(Num()) - old(b.Num())) % Modulus()
      ensures old(Num()) >= old(b.Num()) ==> Num() == old(Num()) - old(b.Num())
    {
      hide Pow;
      ghost var x, y, m := Num(), b.Num(), Modulus();
      var minus := b.Negate();
      assert Num() == x;
      ValueBound(pn[..]);
      ValueBound(b.pn[..]);
      Add(minus);
      SubModulo(x, y, m);
    }

    /** Prefix increment: the carry runs while limbs wrap to zero. */
    method Increment()
      modifies pn
      ensures Num() == (old(Num()) + 1) % Modulus()
    {
      hide Pow, Value;
      ghost var x := pn[..];
      var i := 0;
      while i < pn.Length
        invariant 0 <= i <= pn.Length
        invariant forall k :: i <= k < pn.Length ==> pn[k] == x[k]
        invariant forall k :: 0 <= k < i ==> pn[k] == 0 && x[k] == BASE - 1
      {
        pn[i] := (pn[i] + 1) % BASE;
        if pn[i] != 0 {
          assert pn[..][i + 1..] == x[i + 1..];
          CarryStops(x, pn[..], i);
          return;
        }
        i := i + 1;
      }
      CarryLost(x, pn[..]);
    }

    /** Prefix decrement: the borrow runs while limbs wrap to the largest value. */
    method Decrement()
      modifies pn
      ensures Num() == (old(Num()) - 1) % Modulus()
    {
      hide Pow, Value;
      ghost var x := pn[..];
      var i := 0;
      while i < pn.Length
        invariant 0 <= i <= pn.Length
        invariant forall k :: i <= k < pn.Length ==> pn[k] == x[k]
        invariant forall k :: 0 <= k < i ==> pn[k] == BASE - 1 && x[k] == 0
      {
        pn[i] := (pn[i] - 1) % BASE;
        if pn[i] != BASE - 1 {
          assert pn[..][i + 1..] == x[i + 1..];
          BorrowStops(x, pn[..], i);
          return;
        }
        i := i + 1;
      }
      BorrowLost(x, pn[..]);
    }

    // ---------- Multiplication ----------

    /** Multiplication by one limb. */
    method MulLimb(b32: Limb)
      modifies pn
      ensures Num() == (old(Num()) * b32) % Modulus()
    {
      hide Pow, Value;
      ghost var x := pn[..];
      var carry: Limb := 0;
      ValueNone(pn[..0], 0);
      ValueNone(x[..0], b32);
      for i := 0 to pn.Length
        invariant forall k :: i <= k < pn.Length ==> pn[k] == x[k]
        invariant Value(pn[..i]) + carry * Pow(BASE, i) == Value(x[..i]) * b32
      {
        ghost var before := pn[..i];
        ProductFits(carry, 0, b32, pn[i]);
        var n: nat := carry + b32 * pn[i];
        assert n < UINT64;
        MulStep(x, before, b32, carry, n);
        pn[i] := n % BASE;
        carry := n / BASE;
        assert pn[..i + 1] == before + [n % BASE];
      }
      ghost var w := pn.Length;
      assert pn[..w] == pn[..] && x[..w] == x;
      Wraps(pn[..], carry, Value(x) * b32);
    }

    /** One row of schoolbook multiplication: add `digit * b`, moved up by `j` limbs. What does
      * not fit in the width is lost.
      */
    method AddRow(digit: Limb, b: BaseUint, j: nat) returns (ghost lost: nat)
      requires b.pn.Length == pn.Length && b.pn != pn && j < pn.Length
      modifies pn
      ensures Num() + lost * Modulus() == old(Num()) + (digit * Pow(BASE, j)) * b.Num()
    {
      hide Pow, Value;
      ghost var start, y, shifted := pn[..], b.pn[..], digit * Pow(BASE, j);
      ValueNone(y[..0], shifted);
      var carry: Limb := 0;
      for i := 0 to pn.Length - j
        invariant b.pn[..] == y
        invariant Value(pn[..]) + carry * Pow(BASE, i + j) == Value(start) + shifted * Value(y[..i])
      {
        ghost var x := pn[..];
        assert y[i] == b.pn[i];
        ProductFits(carry, pn[i + j], digit, b.pn[i]);
        var n: nat := carry + pn[i + j] + digit * b.pn[i];
        assert n < UINT64;
        pn[i + j] := n % BASE;
        RowStep(x, y, digit, carry, n, pn[i + j], i, j);
        carry := n / BASE;
        assert pn[..] == x[i + j := pn[i + j]];
      }
      lost := RowLost(digit, y, j, carry);
    }

    /** Multiplication, row by row into a new number. */
    method Mul(b: BaseUint)
      requires b.pn.Length == pn.Length && pn.Length > 0
      modifies pn
      ensures Num() == (old(Num()) * old(b.Num())) % Modulus()
    {
      hide Pow, Value;
      ghost var x, y, m := pn[..], b.Num(), Modulus();
      var a := new BaseUint(pn.Length);
      ghost var lost: nat := 0;
      ValueNone(x[..0], y);
      for j := 0 to pn.Length
        invariant pn[..] == x && b.Num() == y
        invariant a.Num() + lost * m == Value(x[..j]) * y
      {
        ghost var before := a.Num();
        ghost var more := a.AddRow(pn[j], b, j);
        RowDone(x, y, j, lost, more, m, before, a.Num());
        lost := lost + more;
      }
      assert x[..pn.Length] == x;
      Wraps(a.pn[..], lost, Value(x) * y);
      Assign(a);
    }

    // ---------- Comparison and size ----------

    /** Numeric ordering, from the most significant limb down. */
    method CompareTo(b: BaseUint) returns (r: int)
      requires b.pn.Length == pn.Length
      ensures r == if Num() < b.Num() then -1 else if Num() > b.Num() then 1 else 0
    {
      hide Pow, Value;
      var i := pn.Length - 1;
      while i >= 0
        invariant -1 <= i < pn.Length
        invariant forall k :: i < k < pn.Length ==> pn[k] == b.pn[k]
      {
        if pn[i] < b.pn[i] {
          ValueCompare(pn[..], b.pn[..], i);
          return -1;
        }
        if pn[i] > b.pn[i] {
          ValueCompare(b.pn[..], pn[..], i);
          return 1;
        }
        i := i - 1;
      }
      assert pn[..] == b.pn[..];
      return 0;
    }

    /** The position of the highest bit set plus one, or zero for zero. */
    method Bits() returns (n: nat)
      ensures n == 0 <==> Num() == 0
      ensures n > 0 ==> Pow(2, n - 1) <= Num() < Pow(2, n)
      ensures n <= 32 * pn.Length
    {
      hide Pow;
      var pos := pn.Length - 1;
      while pos >= 0
        invariant -1 <= pos < pn.Length
        invariant forall k :: pos < k < pn.Length ==> pn[k] == 0
      {
        if pn[pos] != 0 {
          var top := TopBit(pn[pos]);
          ValueLeading(pn[..], pos);
          LeadingBits(pn[pos], top, pos, Num());
          return 32 * pos + top + 1;
        }
        pos := pos - 1;
      }
      ValueZeros(pn[..]);
      return 0;
    }

    /** The low 64 bits. */
    method GetLow64() returns (r: nat)
      requires pn.Length >= 2
      ensures r == Num() % UINT64
    {
      hide Pow;
      r := Or(pn[0], pn[1] * BASE);
      PowersOfBase(0);
      OrDisjoint(pn[1] * BASE, pn[1], pn[0], 32);
      ValueLow(pn[..]);
      PowSquare();
      LowWord(pn[0], pn[1], Value(pn[..][2..]));
    }

    // ---------- Shifts ----------

    method ShiftLeft(shift: nat)
      modifies pn
      ensures Num() == (old(Num()) * Pow(2, shift)) % Modulus()
    {
      hide Pow, Shl, Shr, LeftPart;
      var a := new BaseUint.Copy(this);
      ghost var x := pn[..];
      for i := 0 to pn.Length
        invariant a.pn[..] == x
        invariant forall j :: 0 <= j < i ==> pn[j] == 0
      {
        pn[i] := 0;
      }
      var k := shift / 32;
      var s := shift % 32;
      forall j | 0 <= j < pn.Length ensures LeftPart(x, s, k, 0, j) == 0 { LeftNone(x, s, k, j); }
      for i := 0 to pn.Length
        invariant a.pn[..] == x
        invariant forall j :: 0 <= j < pn.Length ==> pn[j] == LeftPart(x, s, k, i, j)
      {
        ghost var before := pn[..];
        LeftTurn(x, s, k, i);
        assert a.pn[i] == x[i];
        if i + k + 1 < pn.Length && s != 0 {
          pn[i + k + 1] := Or(pn[i + k + 1], Shr(a.pn[i], 32 - s));
        }
        if i + k < pn.Length {
          pn[i + k] := Or(pn[i + k], Shl(a.pn[i], s));
        }
        forall j | 0 <= j < pn.Length ensures pn[j] == LeftPart(x, s, k, i + 1, j) { LeftSame(x, s, k, i, j); }
      }
      LeftValue(x, pn[..], s, k);
    }

    method ShiftRight(shift: nat)
      modifies pn
      ensures Num() == old(Num()) / Pow(2, shift)
    {
      hide Pow, Shl, Shr, RightPart;
      var a := new BaseUint.Copy(this);
      ghost var x := pn[..];
      for i := 0 to pn.Length
        invariant a.pn[..] == x
        invariant forall j :: 0 <= j < i ==> pn[j] == 0
      {
        pn[i] := 0;
      }
      var k := shift / 32;
      var s := shift % 32;
      forall j | 0 <= j < pn.Length ensures RightPart(x, s, k, 0, j) == 0 { RightNone(x, s, k, j); }
      for i := 0 to pn.Length
        invariant a.pn[..] == x
        invariant forall j :: 0 <= j < pn.Length ==> pn[j] == RightPart(x, s, k, i, j)
      {
        ghost var before := pn[..];
        RightTurn(x, s, k, i);
        assert a.pn[i] == x[i];
        if i - k - 1 >= 0 && s != 0 {
          pn[i - k - 1] := Or(pn[i - k - 1], Shl(a.pn[i], 32 - s));
        }
        if i - k >= 0 {
          pn[i - k] := Or(pn[i - k], Shr(a.pn[i], s));
        }
        forall j | 0 <= j < pn.Length ensures pn[j] == RightPart(x, s, k, i + 1, j) { RightSame(x, s, k, i, j); }
      }
      RightValue(x, pn[..], s, k);
    }

    // ---------- Division ----------

    /** Set a bit of the quotient that is still clear. */
    method SetQuotientBit(shift: nat)
      requires shift / 32 < pn.Length && Clear(pn[..], shift)
      modifies pn
      ensures Num() == old(Num()) + Pow(2, shift) && (shift > 0 ==> Clear(pn[..], shift - 1))
    {
      hide Pow, Value, Or, Clear;
      ghost var x := pn[..];
      SetBit(x, shift);
      pn[shift / 32] := Or(pn[shift / 32], Pow(2, shift % 32));
      assert pn[..] == x[shift / 32 := pn[shift / 32]];
    }

    /** Long division by shifting and subtracting. `ok` is false where the code throws for a
      * zero divisor, which is after it has cleared the receiver; `num` is the working copy of
      * the dividend, which ends as the remainder.
      */
    method Div(b: BaseUint) returns (ok: bool, num: BaseUint)
      requires b.pn.Length == pn.Length >= 2
      modifies pn
      ensures ok <==> old(b.Num()) != 0
      ensures !ok ==> Num() == 0
      ensures ok ==> Num() == old(Num()) / old(b.Num()) && num.Num() == old(Num()) % old(b.Num())
    {
      hide Pow, Value, Or, Clear;
      ghost var n, d := Num(), b.Num();
      var div := new BaseUint.Copy(b);
      num := new BaseUint.Copy(this);
      AssignWord(0);
      var numBits := num.Bits();
      var divBits := div.Bits();
      if divBits == 0 { return false, num; }
      if divBits > numBits {
        SmallerDividend(n, numBits, d, divBits);
        return true, num;
      }
      var shift := numBits - divBits;
      Aligned(n, numBits, d, divBits, pn.Length);
      div.ShiftLeft(shift);
      AllClear(pn[..], shift);
      while shift >= 0
        invariant -1 <= shift < 32 * pn.Length
        invariant fresh(div.pn) && fresh(num.pn) && div.pn != num.pn
        invariant div.pn.Length == num.pn.Length == pn.Length
        invariant shift >= 0 ==> div.Num() == d * Pow(2, shift) && Clear(pn[..], shift)
        invariant num.Num() < d * Pow(2, shift + 1)
        invariant n == Num() * d + num.Num()
      {
        DoubleStep(d, shift);
        var cmp := num.CompareTo(div);
        ghost var q, r := Num(), num.Num();
        if cmp >= 0 {
          num.Sub(div);
          SetQuotientBit(shift);
          QuotientBit(n, q, d, r, Pow(2, shift));
        } else {
          StillClear(pn[..], shift);
        }
        div.ShiftRight(1);
        shift := shift - 1;
      }
      PowTwoStart(d);
      Divides(n, d, Num(), num.Num());
      return true, num;
    }
  }

  // ---------- Long division ----------

  lemma SmallerDividend(n: nat, nBits: nat, d: nat, dBits: nat)
    requires dBits > nBits && d > 0 && Pow(2, dBits - 1) <= d
    requires if nBits == 0 then n == 0 else n < Pow(2, nBits)
    ensures n / d == 0 && n % d == n
  {
    hide Pow;
    PowMonotone(2, nBits, dBits - 1);
    Divides(n, d, 0, n);
  }

  /** The divisor moved up to the dividend keeps all its bits. */
  lemma Aligned(n: nat, nBits: nat, d: nat, dBits: nat, w: nat)
    requires 0 < dBits <= nBits <= 32 * w && n < Pow(2, nBits) && Pow(2, dBits - 1) <= d < Pow(2, dBits)
    ensures (d * Pow(2, nBits - dBits)) % Pow(BASE, w) == d * Pow(2, nBits - dBits)
    ensures n < d * Pow(2, nBits - dBits + 1)
  {
    hide Pow;
    var shift := nBits - dBits;
    PowAdd(2, dBits, shift);
    PowAdd(2, dBits - 1, shift + 1);
    PowersOfBase(w);
    PowMonotone(2, nBits, 32 * w);
    Gap(d, Pow(2, dBits), Pow(2, shift));
    MulMonotone(Pow(2, dBits - 1), Pow(2, shift + 1), d, Pow(2, shift + 1));
    Divides(d * Pow(2, shift), Pow(BASE, w), 0, d * Pow(2, shift));
  }

  /** No bit at or below position `shift` is set. */
  ghost predicate Clear(x: seq<Limb>, shift: nat)
    requires shift / 32 < |x|
  {
    && (forall j :: 0 <= j < shift / 32 ==> x[j] == 0)
    && x[shift / 32] % Pow(2, shift % 32 + 1) == 0
  }

  lemma AllClear(x: seq<Limb>, shift: nat)
    requires shift / 32 < |x| && Value(x) == 0
    ensures Clear(x, shift)
  {
    hide Pow;
    forall j | 0 <= j < |x| ensures x[j] == 0 { ZeroLimb(x, j); }
    Divides(0, Pow(2, shift % 32 + 1), 0, 0);
  }

  lemma ZeroLimb(x: seq<Limb>, j: nat)
    requires j < |x| && Value(x) == 0
    ensures x[j] == 0
  {
    hide Pow, Value;
    ValueSplit(x, j + 1);
    ValueNext(x, j);
    ZeroFactor(x[j], Pow(BASE, j));
  }

  lemma ZeroFactor(a: nat, p: nat)
    requires p > 0 && a * p <= 0
    ensures a == 0
  {
  }

  lemma StillClear(x: seq<Limb>, shift: nat)
    requires shift / 32 < |x| && Clear(x, shift)
    ensures shift > 0 ==> Clear(x, shift - 1)
  {
    hide Pow;
    if shift > 0 {
      ClearBelow(x[shift / 32], shift % 32);
      if shift % 32 == 0 {
        assert (shift - 1) / 32 == shift / 32 - 1 && (shift - 1) % 32 == 31;
        PowersOfBase(0);
      } else {
        assert (shift - 1) / 32 == shift / 32 && (shift - 1) % 32 == shift % 32 - 1;
      }
    }
  }

  lemma ClearBelow(v: nat, r: nat)
    requires v % Pow(2, r + 1) == 0
    ensures v % Pow(2, r) == 0 && (v + Pow(2, r)) % Pow(2, r) == 0
  {
    var p := Pow(2, r);
    var m := v / (2 * p);
    assert Pow(2, r + 1) == 2 * p;
    Parts(v, 2 * p);
    Assoc(m, 2, p);
    Divides(v, p, m * 2, 0);
    Distribute(p, m * 2, 1);
    Divides(v + p, p, m * 2 + 1, 0);
  }

  /** Setting a clear bit adds its weight. */
  lemma SetBit(x: seq<Limb>, shift: nat)
    requires shift / 32 < |x| && Clear(x, shift)
    ensures Or(x[shift / 32], Pow(2, shift % 32)) < BASE
    ensures var y := x[shift / 32 := Or(x[shift / 32], Pow(2, shift % 32)) as Limb];
      Value(y) == Value(x) + Pow(2, shift) && (shift > 0 ==> Clear(y, shift - 1))
  {
    hide Pow, Value;
    var w, r := shift / 32, shift % 32;
    OrBit(x[w], r);
    var v: Limb := Or(x[w], Pow(2, r));
    var y := x[w := v];
    ValueSet(x, w, v);
    PowersOfBase(w);
    PowAdd(2, r, 32 * w);
    if shift > 0 {
      ClearBelow(x[w], r);
      if r == 0 {
        assert (shift - 1) / 32 == w - 1 && (shift - 1) % 32 == 31;
        Divides(0, Pow(2, 32), 0, 0);
        assert y[w - 1] == 0;
      } else {
        assert (shift - 1) / 32 == w && (shift - 1) % 32 == r - 1;
      }
    }
  }

  lemma OrBit(v: Limb, r: nat)
    requires r < 32 && v % Pow(2, r + 1) == 0
    ensures Or(v, Pow(2, r)) == v + Pow(2, r) < BASE
  {
    hide Pow;
    var p := Pow(2, r + 1);
    PowersOfBase(0);
    PowAdd(2, r + 1, 31 - r);
    PowTwoStep(r);
    Parts(v, p);
    OrDisjoint(v, v / p, Pow(2, r), r + 1);
    RoomAbove(v, v / p, p, Pow(2, 31 - r));
  }

  lemma RoomAbove(v: nat, m: nat, p: nat, q: nat)
    requires v == m * p && v < p * q
    ensures v + p <= p * q
  {
    if m >= q {
      MulMonotone(q, p, m, p);
    } else {
      Gap(m, q, p);
    }
  }

  lemma PowTwoStep(r: nat)
    ensures Pow(2, r + 1) == 2 * Pow(2, r)
  {
  }

  lemma PowTwoStart(d: nat)
    ensures d * Pow(2, 0) == d
  {
  }

  lemma DoubleStep(d: nat, shift: nat)
    ensures d * Pow(2, shift + 1) == d * Pow(2, shift) + d * Pow(2, shift)
    ensures shift > 0 ==> (d * Pow(2, shift)) / Pow(2, 1) == d * Pow(2, shift - 1)
  {
    PowTwoStep(shift);
    Swap(d, 2, Pow(2, shift));
    if shift > 0 {
      PowTwoStep(shift - 1);
      Swap(d, 2, Pow(2, shift - 1));
      assert Pow(2, 1) == 2;
    }
  }

  lemma QuotientBit(n: nat, q: nat, d: nat, r: nat, p: nat)
    requires n == q * d + r
    ensures n == (q + p) * d + (r - d * p)
  {
    Distribute(d, q, p);
  }

  // ---------- Single bits ----------

  /** Whether bit `n` of a limb is set. */
  predicate BitSet(x: Limb, n: nat) {
    (x / Pow(2, n)) % 2 == 1
  }

  lemma BitBound(x: Limb, n: nat)
    requires x < Pow(2, n + 1)
    ensures BitSet(x, n) <==> x >= Pow(2, n)
  {
    var p := Pow(2, n);
    assert Pow(2, n + 1) == 2 * p;
    if x >= p { Divides(x, p, 1, x - p); } else { Divides(x, p, 0, x); }
  }

  /** The highest bit set in a limb; the lowest bit is not looked at. */
  method TopBit(x: Limb) returns (n: nat)
    requires x != 0
    ensures n < 32 && Pow(2, n) <= x < Pow(2, n + 1)
  {
    PowersOfBase(0);
    n := 31;
    while n > 0
      invariant n <= 31 && x < Pow(2, n + 1)
    {
      BitBound(x, n);
      if BitSet(x, n) { return n; }
      n := n - 1;
    }
  }

  lemma LeadingBits(limb: Limb, top: nat, pos: nat, v: nat)
    requires Pow(2, top) <= limb < Pow(2, top + 1)
    requires limb * Pow(BASE, pos) <= v < limb * Pow(BASE, pos) + Pow(BASE, pos)
    ensures Pow(2, 32 * pos + top) <= v < Pow(2, 32 * pos + top + 1)
  {
    hide Pow;
    PowersOfBase(pos);
    var b := Pow(BASE, pos);
    PowAdd(2, 32 * pos, top);
    PowAdd(2, 32 * pos, top + 1);
    MulMonotone(Pow(2, top), b, limb, b);
    Gap(limb, Pow(2, top + 1), b);
  }

  lemma PowSquare()
    ensures Pow(BASE, 2) == UINT64
  {
    PowStep(1);
    PowStep(0);
  }

  lemma LowWord(a: Limb, b: Limb, rest: nat)
    ensures (a + b * BASE + UINT64 * rest) % UINT64 == a + b * BASE
  {
    Divides(a + b * BASE + UINT64 * rest, UINT64, rest, a + b * BASE);
  }

  // ---------- One turn of a shift loop ----------

  lemma LeftNone(x: seq<Limb>, s: nat, k: nat, j: nat)
    requires s < 32
    ensures LeftPart(x, s, k, 0, j) == 0
  {
  }

  lemma LeftTurn(x: seq<Limb>, s: nat, k: nat, i: nat)
    requires s < 32 && i < |x|
    ensures Or(LeftPart(x, s, k, i, i + k + 1), Shr(x[i], 32 - s)) == LeftPart(x, s, k, i + 1, i + k + 1) < BASE
    ensures Or(LeftPart(x, s, k, i, i + k), Shl(x[i], s)) == LeftPart(x, s, k, i + 1, i + k) < BASE
    ensures s == 0 ==> LeftPart(x, s, k, i + 1, i + k + 1) == LeftPart(x, s, k, i, i + k + 1)
  {
    hide Pow, Shl, Shr;
    NoShift(x[i]);
    OrZero(Shr(x[i], 32 - s));
    OrSym(0, Shr(x[i], 32 - s));
    ShlShr(x[i], s);
    var under := if i > 0 then Shr(x[i - 1], 32 - s) else 0;
    if i > 0 { ShlShr(x[i - 1], s); }
    OrDisjoint(Shl(x[i], s), x[i] % Pow(2, 32 - s), under, s);
  }

  lemma LeftSame(x: seq<Limb>, s: nat, k: nat, i: nat, j: nat)
    requires s < 32 && i < |x|
    ensures j != i + k && j != i + k + 1 ==> LeftPart(x, s, k, i + 1, j) == LeftPart(x, s, k, i, j)
  {
  }

  lemma RightNone(x: seq<Limb>, s: nat, k: nat, j: nat)
    requires s < 32
    ensures RightPart(x, s, k, 0, j) == 0
  {
  }

  lemma RightTurn(x: seq<Limb>, s: nat, k: nat, i: nat)
    requires s < 32 && i < |x|
    ensures i - k - 1 >= 0 ==> Or(RightPart(x, s, k, i, i - k - 1), Shl(x[i], 32 - s)) == RightPart(x, s, k, i + 1, i - k - 1) < BASE
    ensures i - k >= 0 ==> Or(RightPart(x, s, k, i, i - k), Shr(x[i], s)) == RightPart(x, s, k, i + 1, i - k) < BASE
    ensures i - k - 1 >= 0 && s == 0 ==> RightPart(x, s, k, i + 1, i - k - 1) == RightPart(x, s, k, i, i - k - 1)
  {
    hide Pow, Shl, Shr;
    NoShift(x[i]);
    OrZero(Shr(x[i], s));
    OrSym(0, Shr(x[i], s));
    ShrShl(x[i], s);
    if i - k - 1 >= 0 {
      ShrShl(x[i - 1], s);
      OrDisjoint(Shl(x[i], 32 - s), x[i] % Pow(2, s), Shr(x[i - 1], s), 32 - s);
    }
  }

  lemma RightSame(x: seq<Limb>, s: nat, k: nat, i: nat, j: nat)
    requires s < 32 && i < |x|
    ensures j != i - k && j != i - k - 1 ==> RightPart(x, s, k, i + 1, j) == RightPart(x, s, k, i, j)
  {
  }

  // ---------- Rows ----------

  lemma ValueNone(s: seq<Limb>, b: nat)
    requires s == []
    ensures Value(s) == 0 && Value(s) * b == 0
  {
  }

  /** A result and what went past its width. */
  lemma Wraps(z: seq<Limb>, carry: nat, v: nat)
    requires Value(z) + carry * Pow(BASE, |z|) == v
    ensures Value(z) == v % Pow(BASE, |z|)
  {
    hide Pow, Value;
    ValueBound(z);
    Divides(v, Pow(BASE, |z|), carry, Value(z));
  }

  lemma AddStep(x: seq<Limb>, y: seq<Limb>, z: seq<Limb>, carry: nat, n: nat)
    requires |z| < |x| == |y| && n == carry + x[|z|] + y[|z|]
    requires Value(z) + carry * Pow(BASE, |z|) == Value(x[..|z|]) + Value(y[..|z|])
    ensures Value(z + [n % BASE]) + (n / BASE) * Pow(BASE, |z| + 1) == Value(x[..|z| + 1]) + Value(y[..|z| + 1])
  {
    hide Pow, Value;
    var i := |z|;
    ValueAppend(z, n % BASE);
    ValueNext(x, i);
    ValueNext(y, i);
    CarryOut(n, i);
    Distribute3(Pow(BASE, i), carry, x[i], y[i]);
  }

  lemma MulStep(x: seq<Limb>, z: seq<Limb>, b: nat, carry: nat, n: nat)
    requires |z| < |x| && n == carry + b * x[|z|]
    requires Value(z) + carry * Pow(BASE, |z|) == Value(x[..|z|]) * b
    ensures Value(z + [n % BASE]) + (n / BASE) * Pow(BASE, |z| + 1) == Value(x[..|z| + 1]) * b
  {
    hide Pow, Value;
    var i := |z|;
    var p := Pow(BASE, i);
    ValueAppend(z, n % BASE);
    ValueNext(x, i);
    CarryOut(n, i);
    Distribute(p, carry, b * x[i]);
    Assoc(b, x[i], p);
    Distribute(b, Value(x[..i]), x[i] * p);
  }

  /** One limb of a row: what stays and what is carried on add up. */
  lemma RowStep(x: seq<Limb>, y: seq<Limb>, digit: nat, carry: nat, n: nat, low: Limb, i: nat, j: nat)
    requires i + j < |x| == |y| && n == carry + x[i + j] + digit * y[i] && low == n % BASE
    ensures Value(x[i + j := low]) + (n / BASE) * Pow(BASE, i + 1 + j) - Value(x) - carry * Pow(BASE, i + j)
         == (digit * Pow(BASE, j)) * Value(y[..i + 1]) - (digit * Pow(BASE, j)) * Value(y[..i])
  {
    hide Pow, Value;
    ValueSet(x, i + j, low);
    ValueNext(y, i);
    RowCarry(n, carry, x[i + j], digit, y[i], i, j);
    Distribute(digit * Pow(BASE, j), Value(y[..i]), y[i] * Pow(BASE, i));
  }

  lemma RowCarry(n: nat, carry: nat, a: nat, digit: nat, v: nat, i: nat, j: nat)
    requires n == carry + a + digit * v
    ensures (n % BASE - a) * Pow(BASE, i + j) + (n / BASE) * Pow(BASE, i + 1 + j)
         == carry * Pow(BASE, i + j) + (digit * Pow(BASE, j)) * (v * Pow(BASE, i))
  {
    hide Pow;
    var p := Pow(BASE, i + j);
    CarryOut(n, i + j);
    assert i + j + 1 == i + 1 + j;
    PowAdd(BASE, j, i);
    Distribute(p, n % BASE - a, a);
    Distribute3(p, carry, a, digit * v);
    Regroup(digit, Pow(BASE, j), v, Pow(BASE, i));
  }

  lemma Regroup(a: int, b: int, c: int, d: int)
    ensures (a * b) * (c * d) == (a * c) * (b * d)
  {
    Assoc(a * b, c, d);
    Assoc(a * c, b, d);
  }

  /** A row cut at the width: the last carry and the limbs not visited are lost. */
  lemma RowLost(digit: nat, y: seq<Limb>, j: nat, carry: nat) returns (lost: nat)
    requires j < |y|
    ensures (digit * Pow(BASE, j)) * Value(y) - (digit * Pow(BASE, j)) * Value(y[..|y| - j])
         == lost * Pow(BASE, |y|) - carry * Pow(BASE, |y| - j + j)
  {
    hide Pow, Value;
    var m := |y| - j;
    ValueSplit(y, m);
    PowAdd(BASE, j, m);
    assert m + j == |y| == j + m;
    var rest := Value(y[m..]);
    Distribute(digit * Pow(BASE, j), Value(y[..m]), Pow(BASE, m) * rest);
    Regroup(digit, Pow(BASE, j), rest, Pow(BASE, m));
    lost := carry + digit * rest;
    Distribute(Pow(BASE, |y|), carry, digit * rest);
  }

  lemma RowDone(x: seq<Limb>, y: nat, j: nat, lost: nat, more: nat, m: nat, before: nat, after: nat)
    requires j < |x| && before + lost * m == Value(x[..j]) * y
    requires after + more * m == before + (x[j] * Pow(BASE, j)) * y
    ensures after + (lost + more) * m == Value(x[..j + 1]) * y
  {
    hide Pow, Value;
    ValueNext(x, j);
    Distribute(y, Value(x[..j]), x[j] * Pow(BASE, j));
    Distribute(m, lost, more);
  }

  // ---------- Carries ----------

  lemma ValueAppend(s: seq<Limb>, v: Limb)
    ensures Value(s + [v]) == Value(s) + v * Pow(BASE, |s|)
  {
    hide Pow;
    assert (s + [v])[..|s|] == s;
  }

  lemma ValueLow(s: seq<Limb>)
    requires |s| >= 2
    ensures Value(s) == s[0] + s[1] * BASE + Pow(BASE, 2) * Value(s[2..])
  {
    ValueSplit(s, 2);
    ValueNext(s, 0);
    ValueNext(s, 1);
    assert s[..0] == [];
    assert Pow(BASE, 1) == BASE;
  }

  lemma PowStep(i: nat)
    ensures Pow(BASE, i + 1) == BASE * Pow(BASE, i)
  {
  }

  /** A double limb split into the limb that stays and the carry. */
  lemma CarryOut(n: nat, i: nat)
    ensures (n % BASE) * Pow(BASE, i) + (n / BASE) * Pow(BASE, i + 1) == n * Pow(BASE, i)
  {
    PowStep(i);
    CarrySplit(n, Pow(BASE, i));
  }

  lemma CarrySplit(n: nat, p: nat)
    ensures (n % BASE) * p + (n / BASE) * (BASE * p) == n * p
  {
    Parts(n, BASE);
    Assoc(n / BASE, BASE, p);
    Distribute(p, (n / BASE) * BASE, n % BASE);
  }

  lemma Distribute3(p: int, a: int, b: int, c: int)
    ensures (a + b + c) * p == a * p + b * p + c * p
  {
  }

  /** Two limbs and the product of two limbs fit in 64 bits. */
  lemma ProductFits(carry: Limb, a: Limb, x: Limb, y: Limb)
    ensures carry as int + a + x * y < UINT64
    ensures 0 <= (carry as int + a + x * y) / BASE < BASE
  {
    MulMonotone(x, y, BASE - 1, BASE - 1);
    Parts(carry as int + a + x * y, BASE);
  }

  /** A number and its complement add up to the largest number. */
  lemma {:induction false} Complemented(x: seq<Limb>, z: seq<Limb>)
    requires |x| == |z| && forall k :: 0 <= k < |x| ==> z[k] as int == BASE - 1 - x[k]
    ensures Value(z) + Value(x) + 1 == Pow(BASE, |x|)
  {
    hide Pow;
    if x == [] {
      PowStart();
    } else {
      var n := |x| - 1;
      Complemented(x[..n], z[..n]);
      Complement(x[n], n);
    }
  }

  lemma Complement(a: Limb, i: nat)
    ensures (BASE - 1 - a) * Pow(BASE, i) + a * Pow(BASE, i) + Pow(BASE, i) == Pow(BASE, i + 1)
  {
    PowStep(i);
    var p := Pow(BASE, i);
    Distribute(p, BASE - 1 - a, a);
    Distribute(p, BASE - 1, 1);
  }

  /** Limbs below `i` were all the largest value and become zeros; limb `i` takes the carry. */
  lemma CarryStops(x: seq<Limb>, z: seq<Limb>, i: nat)
    requires i < |x| == |z| && z[i + 1..] == x[i + 1..] && x[i] as int + 1 == z[i]
    requires forall k :: 0 <= k < i ==> z[k] == 0 && x[k] == BASE - 1
    ensures Value(z) == (Value(x) + 1) % Pow(BASE, |x|)
  {
    hide Pow, Value;
    ValueZeros(z[..i]);
    Complemented(z[..i], x[..i]);
    ValueDiffers(x, z, i);
    OneMore(x[i], z[i], Pow(BASE, i));
    ValueBound(z);
    Divides(Value(x) + 1, Pow(BASE, |x|), 0, Value(x) + 1);
  }

  lemma CarryLost(x: seq<Limb>, z: seq<Limb>)
    requires |x| == |z| && forall k :: 0 <= k < |x| ==> z[k] == 0 && x[k] == BASE - 1
    ensures Value(z) == (Value(x) + 1) % Pow(BASE, |x|)
  {
    hide Pow, Value;
    ValueZeros(z);
    Complemented(z, x);
    Divides(Value(x) + 1, Pow(BASE, |x|), 1, 0);
  }

  /** Limbs below `i` were all zeros and become the largest value; limb `i` gives the borrow. */
  lemma BorrowStops(x: seq<Limb>, z: seq<Limb>, i: nat)
    requires i < |x| == |z| && z[i + 1..] == x[i + 1..] && z[i] as int + 1 == x[i]
    requires forall k :: 0 <= k < i ==> z[k] == BASE - 1 && x[k] == 0
    ensures Value(x) > 0 && Value(z) == (Value(x) - 1) % Pow(BASE, |x|)
  {
    hide Pow, Value;
    ValueZeros(x[..i]);
    Complemented(x[..i], z[..i]);
    ValueDiffers(x, z, i);
    OneMore(z[i], x[i], Pow(BASE, i));
    ValueBound(z);
    Divides(Value(z), Pow(BASE, |x|), 0, Value(z));
  }

  lemma BorrowLost(x: seq<Limb>, z: seq<Limb>)
    requires |x| == |z| && forall k :: 0 <= k < |x| ==> z[k] == BASE - 1 && x[k] == 0
    ensures Value(z) == (Value(x) - 1) % Pow(BASE, |x|)
  {
    hide Pow, Value;
    ValueZeros(x);
    Complemented(x, z);
    DividesBelow(-1, Pow(BASE, |x|));
  }

  lemma OneMore(a: int, b: int, p: int)
    requires b - a == 1
    ensures b * p == a * p + p
  {
  }

  lemma ValueDiffers(x: seq<Limb>, z: seq<Limb>, i: nat)
    requires i < |x| == |z| && z[i + 1..] == x[i + 1..]
    ensures Value(x) - Value(z) == Value(x[..i]) + x[i] * Pow(BASE, i) - Value(z[..i]) - z[i] * Pow(BASE, i)
  {
    hide Pow;
    ValueSplit(x, i + 1);
    ValueSplit(z, i + 1);
    ValueNext(x, i);
    ValueNext(z, i);
  }

  lemma DividesBelow(x: int, m: int)
    requires -m <= x < 0
    ensures x % m == x + m
  {
    var q, r := x / m, x % m;
    assert x == q * m + r && 0 <= r < m;
    if q >= 0 {
      MulMonotone(0, m, q, m);
    } else if q <= -2 {
      MulMonotone(2, m, -q, m);
    }
  }

  lemma NegateModulo(x: nat, m: nat)
    requires x < m
    ensures x == 0 ==> m % m == 0
    ensures x != 0 ==> (m - x) % m == m - x
  {
    if x == 0 {
      Divides(m, m, 1, 0);
    } else {
      Divides(m - x, m, 0, m - x);
    }
  }

  lemma SubModulo(x: nat, y: nat, m: nat)
    requires x < m && y < m
    ensures (x + (if y == 0 then 0 else m - y)) % m == (x - y) % m
    ensures x >= y ==> (x - y) % m == x - y
  {
    if y == 0 {
      Divides(x, m, 0, x);
    } else if x >= y {
      Divides(x + (m - y), m, 1, x - y);
      Divides(x - y, m, 0, x - y);
    } else {
      Divides(x + (m - y), m, 0, x + (m - y));
      DividesBelow(x - y, m);
    }
  }
}
