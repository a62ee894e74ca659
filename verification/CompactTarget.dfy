/** The compact form of a 256-bit target: a 23-bit mantissa, a sign bit and a base-256 exponent. */
module CompactTarget {
  import opened Powers
  import opened Limbs
  import opened ArithUint

  const WIDTH: nat := 8

  type Compact = c: nat | c < 0x1_0000_0000

  function Exponent(c: Compact): nat { c / 0x100_0000 }
  function Sign(c: Compact): bool { (c / 0x80_0000) % 2 == 1 }
  function Mantissa(c: Compact): nat { c % 0x80_0000 }

  /** The number of 256 bits. */
  ghost function Limit(): nat { Pow(256, 32) }

  /** The integer a compact form stands for, before it is cut to 256 bits. */
  ghost function Meaning(c: Compact): nat {
    Shrinks(Mantissa(c), Pow(256, if Exponent(c) <= 3 then 3 - Exponent(c) else 0));
    if Exponent(c) <= 3 then Mantissa(c) / Pow(256, 3 - Exponent(c)) else Mantissa(c) * Pow(256, Exponent(c) - 3)
  }

  /** A number brought to three bytes: multiplied up, or cut off at the bottom. */
  ghost function Scaled(x: nat, size: nat): nat {
    Shrinks(x, Pow(256, if size <= 3 then 0 else size - 3));
    if size <= 3 then x * Pow(256, 3 - size) else x / Pow(256, size - 3)
  }

  /** The one compact form of a number: its leading bytes as a mantissa that cannot be mistaken
    * for a negative one, and that is as long as that allows.
    */
  ghost predicate CompactOf(x: nat, negative: bool, c: Compact) {
    if x == 0 then c == 0
    else Mantissa(c) == Scaled(x, Exponent(c)) && Mantissa(c) >= 0x8000 && Sign(c) == negative
  }

  /** The bytes below the mantissa. */
  ghost function Dropped(c: Compact): nat {
    if Exponent(c) <= 3 then 0 else Exponent(c) - 3
  }

  // ---------- Uniqueness ----------

  lemma ScaledNext(x: nat, size: nat)
    ensures Scaled(x, size + 1) == Scaled(x, size) / 256
  {
    hide Pow;
    if size < 3 {
      PowStep256(2 - size);
      Swap(x, 256, Pow(256, 2 - size));
      assert 3 - size == 2 - size + 1 && 3 - (size + 1) == 2 - size;
    } else if size == 3 {
      PowZero256();
      PowStep256(0);
    } else {
      var n := size - 3;
      PowStep256(n);
      DivTwice(x, Pow(256, n), 256);
      assert size + 1 - 3 == n + 1;
    }
  }

  lemma PowStep256(n: nat)
    ensures Pow(256, n + 1) == 256 * Pow(256, n)
  {
  }

  lemma PowZero256()
    ensures Pow(256, 0) == 1
  {
  }

  lemma DivTwice(x: nat, p: nat, q: nat)
    requires p > 0 && q > 0
    ensures x / (q * p) == (x / p) / q
  {
    var a := x / p;
    Parts(x, p);
    Parts(a, q);
    var b, r := a / q, a % q;
    Distribute(p, b * q, r);
    Assoc(p, b, q);
    Swap(p, b, q);
    Gap(r, q, p);
    assert x == b * (q * p) + (r * p + x % p);
    Divides(x, q * p, b, r * p + x % p);
  }

  lemma {:induction false} ScaledFalls(x: nat, size: nat, size': nat)
    requires size < size'
    ensures Scaled(x, size') <= Scaled(x, size) / 256
    decreases size'
  {
    hide Scaled;
    ScaledNext(x, size' - 1);
    if size + 1 < size' {
      ScaledFalls(x, size, size' - 1);
    }
  }

  lemma CompactUnique(x: nat, negative: bool, c: Compact, c': Compact)
    requires CompactOf(x, negative, c) && CompactOf(x, negative, c')
    ensures c == c'
  {
    hide Scaled;
    if x != 0 {
      if Exponent(c) < Exponent(c') { ScaledFalls(x, Exponent(c), Exponent(c')); }
      if Exponent(c') < Exponent(c) { ScaledFalls(x, Exponent(c'), Exponent(c)); }
      FieldsDecide(c);
      FieldsDecide(c');
    }
  }

  lemma FieldsDecide(c: Compact)
    ensures c == Exponent(c) * 0x100_0000 + (if Sign(c) then 0x80_0000 else 0) + Mantissa(c)
  {
  }

  lemma FieldsOf(size: nat, sign: bool, m: nat)
    requires size < 256 && m < 0x80_0000
    ensures var c := size * 0x100_0000 + (if sign then 0x80_0000 else 0) + m;
      c < 0x1_0000_0000 && Exponent(c) == size && Sign(c) == sign && Mantissa(c) == m
  {
  }

  // ---------- Round trip ----------

  /** Reading the compact form of a number gives it with the bytes below the mantissa cleared;
    * nothing overflows, and the sign is the one asked for.
    */
  lemma CompactRoundTrip(x: nat, negative: bool, c: Compact)
    requires CompactOf(x, negative, c)
    ensures Meaning(c) == x - x % Pow(256, Dropped(c)) <= x
    ensures (Meaning(c) != 0 && Sign(c)) <==> (x != 0 && negative)
  {
    hide Pow;
    PowZero256();
    Divides(x, 1, x, 0);
    var size := Exponent(c);
    if x == 0 {
      Divides(0, Pow(256, 3), 0, 0);
    } else if size <= 3 {
      Divides(Mantissa(c), Pow(256, 3 - size), x, 0);
    } else {
      Parts(x, Pow(256, size - 3));
      Enlarges(Mantissa(c), Pow(256, size - 3));
    }
  }

  /** The number with its low bytes cleared has the same compact form. */
  lemma CompactStable(x: nat, negative: bool, c: Compact)
    requires CompactOf(x, negative, c)
    ensures CompactOf(Meaning(c), negative, c)
  {
    hide Pow;
    CompactRoundTrip(x, negative, c);
    if x != 0 {
      var size := Exponent(c);
      if size <= 3 {
        PowZero256();
        Divides(x, 1, x, 0);
      } else {
        var p := Pow(256, size - 3);
        Divides(Mantissa(c) * p, p, Mantissa(c), 0);
        Enlarges(Mantissa(c), p);
      }
    }
  }

  // ---------- Overflow ----------

  /** The three-way test on the exponent, exact for every compact form. */
  lemma OverflowExact(c: Compact, word: nat)
    requires word == if Exponent(c) <= 3 then Meaning(c) else Mantissa(c)
    ensures (word != 0 && (Exponent(c) > 34 || (word > 0xff && Exponent(c) > 33) || (word > 0xffff && Exponent(c) > 32)))
       <==> Meaning(c) >= Limit()
  {
    hide Pow;
    var size := Exponent(c);
    PowValues();
    if size <= 3 {
      Shrinks(Mantissa(c), Pow(256, 3 - size));
      PowMonotone(256, 3, 32);
    } else if size > 34 {
      PowMonotone(256, 32, size - 3);
      MulMonotone(1, Limit(), if word != 0 then word else 1, Pow(256, size - 3));
    } else if size == 34 {
      PowAdd(256, 1, 31);
      Compare(word, 256, Pow(256, 31));
    } else if size == 33 {
      PowAdd(256, 2, 30);
      Compare(word, 65536, Pow(256, 30));
    } else {
      PowMonotone(256, size - 3, 29);
      PowAdd(256, 3, 29);
      MulMonotone(word, Pow(256, size - 3), 0x80_0000, Pow(256, 29));
      Gap(0x80_0000, 0x100_0000, Pow(256, 29));
    }
  }

  lemma PowValues()
    ensures Pow(256, 1) == 256 && Pow(256, 2) == 65536 && Pow(256, 3) == 0x100_0000
  {
  }

  lemma Compare(a: nat, b: nat, p: nat)
    requires p > 0
    ensures a >= b <==> a * p >= b * p
  {
    if a >= b { MulMonotone(b, p, a, p); } else { Gap(a, b, p); }
  }

  // ---------- The methods ----------

  lemma ByteShift(n: nat)
    ensures Pow(2, 8 * n) == Pow(256, n)
  {
    assert Pow(2, 8) == 256;
    PowPow(2, 8, n);
  }

  lemma LimitIsModulus()
    ensures Pow(BASE, WIDTH) == Limit()
  {
    hide Pow;
    PowersOfBase(WIDTH);
    ByteShift(32);
  }

  /** The size in bytes from the size in bits. */
  lemma BytesBound(x: nat, bits: nat)
    requires bits > 0 && Pow(2, bits - 1) <= x < Pow(2, bits)
    ensures var size := (bits + 7) / 8; Pow(256, size - 1) <= x < Pow(256, size)
  {
    hide Pow;
    var size := (bits + 7) / 8;
    ByteShift(size - 1);
    ByteShift(size);
    PowMonotone(2, 8 * (size - 1), bits - 1);
    PowMonotone(2, bits, 8 * size);
  }

  lemma ScaledRange(x: nat, size: nat)
    requires size > 0 && Pow(256, size - 1) <= x < Pow(256, size)
    ensures 0x1_0000 <= Scaled(x, size) < 0x100_0000
  {
    hide Pow;
    PowValues();
    if size <= 3 {
      var p := Pow(256, 3 - size);
      PowAdd(256, size - 1, 3 - size);
      PowAdd(256, size, 3 - size);
      MulMonotone(Pow(256, size - 1), p, x, p);
      Gap(x, Pow(256, size), p);
    } else {
      var p := Pow(256, size - 3);
      PowAdd(256, 2, size - 3);
      PowAdd(256, 3, size - 3);
      Quotient(x, p, 0x1_0000, 0x100_0000);
    }
  }

  lemma Quotient(x: nat, p: nat, a: nat, b: nat)
    requires p > 0 && a * p <= x < b * p
    ensures a <= x / p < b
  {
    var q := x / p;
    Parts(x, p);
    if q < a { Gap(q, a, p); }
    if q >= b { MulMonotone(b, p, q, p); }
  }

  /** Joining the exponent, the sign and the mantissa by bitwise or. */
  lemma Joined(size: nat, m: nat)
    requires size < 256 && m < 0x80_0000
    ensures Or(m, size * 0x100_0000) == size * 0x100_0000 + m
    ensures Or(size * 0x100_0000 + m, 0x80_0000) == size * 0x100_0000 + 0x80_0000 + m
    ensures Or(size * 0x100_0000 + m, 0) == size * 0x100_0000 + m
  {
    hide Pow;
    Pow24();
    OrDisjoint(size * 0x100_0000, size, m, 24);
    OrZero(size * 0x100_0000 + m);
    OrMiddle(size, m);
  }

  lemma Pow24()
    ensures Pow(2, 23) == 0x80_0000 && Pow(2, 24) == 0x100_0000
  {
    assert Pow(2, 8) == 256;
    PowAdd(2, 8, 8);
    PowAdd(2, 16, 8);
    PowTwoStep(23);
  }

  lemma OrMiddle(size: nat, m: nat)
    requires m < 0x80_0000
    ensures Or(size * 0x100_0000 + m, 0x80_0000) == size * 0x100_0000 + 0x80_0000 + m
  {
    hide Pow, Or;
    Pow24();
    OrSplit(2 * size, m, 1, 0, 23);
    OrOdd(size);
    OrZero(m);
  }

  lemma OrOdd(n: nat)
    ensures Or(2 * n, 1) == 2 * n + 1
  {
    assert Or(n, 0) == n by { OrZero(n); }
    assert (2 * n) / 2 == n;
  }

  /** Or works on the parts above and below a bit separately. */
  lemma {:induction false} OrSplit(a: nat, b: nat, c: nat, d: nat, k: nat)
    requires b < Pow(2, k) && d < Pow(2, k)
    ensures Or(a * Pow(2, k) + b, c * Pow(2, k) + d) == Or(a, c) * Pow(2, k) + Or(b, d)
  {
    hide Or;
    if k == 0 {
      OrSame(a, c);
    } else {
      OrSplit(a, b / 2, c, d / 2, k - 1);
      OrSplitStep(a, b, c, d, Pow(2, k - 1));
    }
  }

  lemma OrSame(a: nat, c: nat)
    ensures Or(0, 0) == 0 && a * Pow(2, 0) == a && c * Pow(2, 0) == c && Or(a, c) * Pow(2, 0) == Or(a, c)
  {
  }

  lemma OrSplitStep(a: nat, b: nat, c: nat, d: nat, p: nat)
    requires Or(a * p + b / 2, c * p + d / 2) == Or(a, c) * p + Or(b / 2, d / 2)
    ensures Or(a * (2 * p) + b, c * (2 * p) + d) == Or(a, c) * (2 * p) + Or(b, d)
  {
    hide Or;
    Swap(a, 2, p);
    Swap(c, 2, p);
    OrHalf(a * p, b, c * p, d);
    Swap(Or(a, c), 2, p);
  }

  lemma OrHalf(x: nat, b: nat, y: nat, d: nat)
    ensures Or(2 * x + b, 2 * y + d) == 2 * Or(x + b / 2, y + d / 2) + if b % 2 == 1 || d % 2 == 1 then 1 else 0
    ensures Or(b, d) == 2 * Or(b / 2, d / 2) + if b % 2 == 1 || d % 2 == 1 then 1 else 0
  {
    assert (2 * x + b) / 2 == x + b / 2 && (2 * y + d) / 2 == y + d / 2;
    assert (2 * x + b) % 2 == b % 2 && (2 * y + d) % 2 == d % 2;
    assert Or(0, 0) == 0;
  }

  /** A 256-bit number. */
  class ArithUint256 {
    const num: BaseUint

    ghost predicate Valid() {
      num.pn.Length == WIDTH
    }

    constructor ()
      ensures Valid() && fresh(num) && fresh(num.pn) && num.Num() == 0
    {
      num := new BaseUint(WIDTH);
    }

    method SetCompact(c: Compact) returns (negative: bool, overflow: bool)
      requires Valid()
      modifies num.pn
      ensures num.Num() == Meaning(c) % Limit()
      ensures negative <==> Meaning(c) != 0 && Sign(c)
      ensures overflow <==> Meaning(c) >= Limit()
    {
      hide Pow, Value;
      LimitIsModulus();
      var size := Exponent(c);
      var word := Mantissa(c);
      if size <= 3 {
        ByteShift(3 - size);
        Shrinks(word, Pow(2, 8 * (3 - size)));
        word := word / Pow(2, 8 * (3 - size));
        num.AssignWord(word);
        SmallFits(word);
      } else {
        num.AssignWord(word);
        ByteShift(size - 3);
        num.ShiftLeft(8 * (size - 3));
        NonzeroProduct(word, Pow(256, size - 3));
      }
      negative := word != 0 && Sign(c);
      OverflowExact(c, word);
      overflow := word != 0 && (size > 34 || (word > 0xff && size > 33) || (word > 0xffff && size > 32));
    }

    method GetCompact(negative: bool) returns (c: Compact)
      requires Valid()
      ensures CompactOf(num.Num(), negative, c)
    {
      hide Pow, Value, Or;
      var bits := num.Bits();
      var size := (bits + 7) / 8;
      if bits > 0 {
        BytesBound(num.Num(), bits);
        ScaledRange(num.Num(), size);
      }
      var m := LeadingBytes(size);
      Pow24();
      BitBound(m, 23);
      ScaledNext(num.Num(), size);
      if BitSet(m, 23) {
        m := m / 256;
        size := size + 1;
      }
      assert m < 0x80_0000;
      assert size < 256;
      Joined(size, m);
      FieldsOf(size, false, m);
      FieldsOf(size, true, m);
      c := Or(m, size * 0x100_0000);
      c := Or(c, if negative && Mantissa(c) != 0 then 0x80_0000 else 0);
    }

    /** The three leading bytes, through 64-bit and 32-bit words. */
    method LeadingBytes(size: nat) returns (m: Limb)
      requires Valid() && size <= 32
      requires num.Num() == 0 ==> size == 0
      requires num.Num() != 0 ==> size > 0 && Pow(256, size - 1) <= num.Num() < Pow(256, size)
      ensures m == Scaled(num.Num(), size)
    {
      hide Pow, Value, Or, Scaled;
      ghost var x := num.Num();
      if x != 0 { ScaledRange(x, size); }
      if size <= 3 {
        var low := num.GetLow64();
        SmallWord(x, size);
        m := ((low * Pow(2, 8 * (3 - size))) % UINT64) % BASE;
      } else {
        var bn := new BaseUint.Copy(num);
        LargeWord(x, size);
        bn.ShiftRight(8 * (size - 3));
        var low := bn.GetLow64();
        m := low % BASE;
      }
    }
  }

  lemma SmallFits(word: nat)
    requires word < 0x80_0000
    ensures word < Limit() && word % Limit() == word
  {
    PowValues();
    PowMonotone(256, 3, 32);
    Divides(word, Limit(), 0, word);
  }

  lemma NonzeroProduct(a: nat, p: nat)
    requires p > 0
    ensures a * p == 0 <==> a == 0
  {
    if a != 0 { Enlarges(a, p); }
  }

  lemma SmallWord(x: nat, size: nat)
    requires size <= 3 && (x == 0 || Scaled(x, size) < 0x100_0000)
    ensures ((x % UINT64 * Pow(2, 8 * (3 - size))) % UINT64) % BASE == Scaled(x, size)
  {
    hide Pow;
    ByteShift(3 - size);
    Enlarges(x, Pow(256, 3 - size));
    Words(x);
    Words(x * Pow(256, 3 - size));
  }

  lemma LargeWord(x: nat, size: nat)
    requires size > 3 && Scaled(x, size) < 0x100_0000
    ensures x / Pow(2, 8 * (size - 3)) % UINT64 % BASE == Scaled(x, size)
  {
    hide Pow;
    ByteShift(size - 3);
    Words(Scaled(x, size));
  }

  lemma Words(y: nat)
    requires y < 0x100_0000
    ensures y % UINT64 == y && y % BASE == y
  {
  }

  /** Writing a number in compact form, reading it and writing it again: the number read is the
    * first one with its part below the mantissa cleared, nothing overflows, and the form is the
    * same.
    */
  method Recompact(x: ArithUint256, negative: bool) returns (c: Compact, y: ArithUint256, sign: bool, overflow: bool, again: Compact)
    requires x.Valid()
    ensures y.Valid() && y.num.Num() == x.num.Num() - x.num.Num() % Pow(256, Dropped(c))
    ensures !overflow && (sign <==> negative && x.num.Num() != 0)
    ensures again == c
  {
    hide Pow, Value, CompactOf, Meaning;
    c := x.GetCompact(negative);
    y := new ArithUint256();
    CompactRoundTrip(x.num.Num(), negative, c);
    CompactStable(x.num.Num(), negative, c);
    LimitIsModulus();
    ValueBound(x.num.pn[..]);
    SmallMod(Meaning(c), Limit());
    sign, overflow := y.SetCompact(c);
    again := y.GetCompact(negative);
    CompactUnique(Meaning(c), negative, c, again);
  }

  lemma SmallMod(v: nat, m: nat)
    requires v < m
    ensures v % m == v
  {
    Divides(v, m, 0, v);
  }
}
