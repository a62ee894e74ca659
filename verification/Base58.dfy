/** Base58 strings: two radix conversions in buffers sized in advance, and the checksummed form. */
module Base58 {
  import opened Powers
  import opened Radix

  type Bytes = seq<Byte>

  datatype Option<T> = None | Some(value: T)

  const ONE: Byte := 49
  const INT_MAX: int := 0x7fff_ffff

  // ---------- Characters ----------

  /** The alphabet: digits and letters without "0", "I", "O" and "l". */
  function Letter(d: Byte): Byte
    requires d < 58
  {
    if d < 9 then 49 + d else if d < 17 then 65 + (d - 9) else if d < 22 then 74 + (d - 17)
    else if d < 33 then 80 + (d - 22) else if d < 44 then 97 + (d - 33) else 109 + (d - 44)
  }

  /** The digit of a character, or -1. */
  function Digit(c: Byte): (d: int)
    ensures -1 <= d < 58
  {
    if 49 <= c <= 57 then c - 49 else if 65 <= c <= 72 then c - 65 + 9 else if 74 <= c <= 78 then c - 74 + 17
    else if 80 <= c <= 90 then c - 80 + 22 else if 97 <= c <= 107 then c - 97 + 33
    else if 109 <= c <= 122 then c - 109 + 44 else -1
  }

  predicate IsSpace(c: Byte) {
    c == 32 || 9 <= c <= 13
  }

  lemma LetterDigit(d: Byte)
    requires d < 58
    ensures Digit(Letter(d)) == d && !IsSpace(Letter(d)) && Letter(d) != 0
    ensures Letter(d) == ONE <==> d == 0
  {
  }

  lemma DigitLetter(c: Byte)
    requires Digit(c) != -1
    ensures Letter(Digit(c)) == c && !IsSpace(c) && c != 0
    ensures c == ONE <==> Digit(c) == 0
  {
  }

  function Letters(ds: seq<Byte>): (r: Bytes)
    requires AllBelow(58, ds)
    ensures |r| == |ds| && forall k :: 0 <= k < |r| ==> r[k] == Letter(ds[k])
  {
    seq(|ds|, k requires 0 <= k < |ds| => Letter(ds[k]))
  }

  /** The digits in order are "123456789ABCDEFGHJKLMNPQRSTUVWXYZabcdefghijkmnopqrstuvwxyz". */
  lemma Alphabet()
    ensures Letters([0, 1, 2, 3, 4, 5, 6, 7, 8]) ==
      ['1' as int, '2' as int, '3' as int, '4' as int, '5' as int, '6' as int, '7' as int, '8' as int, '9' as int]
    ensures Letters([9, 10, 11, 12, 13, 14, 15, 16]) ==
      ['A' as int, 'B' as int, 'C' as int, 'D' as int, 'E' as int, 'F' as int, 'G' as int, 'H' as int]
    ensures Letters([17, 18, 19, 20, 21]) ==
      ['J' as int, 'K' as int, 'L' as int, 'M' as int, 'N' as int]
    ensures Letters([22, 23, 24, 25, 26, 27, 28, 29, 30, 31, 32]) ==
      ['P' as int, 'Q' as int, 'R' as int, 'S' as int, 'T' as int, 'U' as int, 'V' as int, 'W' as int, 'X' as int, 'Y' as int, 'Z' as int]
    ensures Letters([33, 34, 35, 36, 37, 38, 39, 40, 41, 42, 43]) ==
      ['a' as int, 'b' as int, 'c' as int, 'd' as int, 'e' as int, 'f' as int, 'g' as int, 'h' as int, 'i' as int, 'j' as int, 'k' as int]
    ensures Letters([44, 45, 46, 47, 48, 49, 50, 51, 52, 53, 54, 55, 56, 57]) ==
      ['m' as int, 'n' as int, 'o' as int, 'p' as int, 'q' as int, 'r' as int, 's' as int, 't' as int, 'u' as int, 'v' as int, 'w' as int, 'x' as int, 'y' as int, 'z' as int]
  {
  }

  ghost predicate AllLetters(s: Bytes) {
    forall k :: 0 <= k < |s| ==> Digit(s[k]) != -1
  }

  ghost function DigitsIn(s: Bytes): (r: seq<Byte>)
    requires AllLetters(s)
    ensures |r| == |s| && forall k :: 0 <= k < |r| ==> r[k] == Digit(s[k])
  {
    seq(|s|, k requires 0 <= k < |s| => Digit(s[k]) as Byte)
  }

  /** How often a list starts with a byte. */
  function Leading(s: Bytes, c: Byte): (n: nat)
    ensures n <= |s|
    ensures forall k :: 0 <= k < n ==> s[k] == c
    ensures n < |s| ==> s[n] != c
  {
    if s == [] || s[0] != c then 0 else 1 + Leading(s[1..], c)
  }

  lemma LeadingIs(s: Bytes, c: Byte, n: nat)
    requires n <= |s| && (forall k :: 0 <= k < n ==> s[k] == c) && (n < |s| ==> s[n] != c)
    ensures Leading(s, c) == n
  {
    hide Leading;
  }

  function Repeat(c: Byte, n: nat): (r: Bytes)
    ensures |r| == n && forall k :: 0 <= k < n ==> r[k] == c
  {
    seq(n, _ => c)
  }

  // ---------- Whitespace around a string ----------

  function Start(s: Bytes): (a: nat)
    ensures a <= |s| && forall k :: 0 <= k < a ==> IsSpace(s[k])
    ensures a < |s| ==> !IsSpace(s[a])
  {
    if s == [] || !IsSpace(s[0]) then 0 else 1 + Start(s[1..])
  }

  function End(s: Bytes): (b: nat)
    ensures b <= |s| && forall k :: b <= k < |s| ==> IsSpace(s[k])
    ensures b > 0 ==> !IsSpace(s[b - 1])
  {
    if s == [] then 0 else if IsSpace(s[|s| - 1]) then End(s[..|s| - 1]) else |s|
  }

  function Trim(s: Bytes): Bytes {
    if Start(s) >= End(s) then [] else s[Start(s)..End(s)]
  }

  /** A part with nothing but spaces around it, and without spaces at its ends, is the trimmed string. */
  lemma TrimIs(s: Bytes, a: nat, b: nat)
    requires a <= b <= |s|
    requires forall k :: 0 <= k < |s| && (k < a || k >= b) ==> IsSpace(s[k])
    requires a < b ==> !IsSpace(s[a]) && !IsSpace(s[b - 1])
    ensures Trim(s) == s[a..b]
  {
    hide Start, End, IsSpace;
    if a < b {
      assert Start(s) == a;
      assert End(s) == b;
    }
  }

  /** Only spaces are trimmed: any other character stays, and so does what is between two of them. */
  lemma TrimKeeps(s: Bytes, p: nat, q: nat)
    requires p <= q < |s| && !IsSpace(s[q]) && exists k :: 0 <= k <= p && !IsSpace(s[k])
    ensures Trim(s) != [] && s[p] in Trim(s)
  {
    hide Start, End, IsSpace;
    assert Start(s) <= p && q < End(s);
    assert Trim(s)[p - Start(s)] == s[p];
  }

  // ---------- What the codec computes ----------

  ghost function Encoded(bytes: Bytes): Bytes {
    var z := Leading(bytes, 0);
    var v := Val(256, bytes[z..]);
    ValDigits(58, v);
    Repeat(ONE, z) + Letters(DigitsOf(58, v))
  }

  /** The bytes a string of letters stands for. */
  ghost function Meaning(s: Bytes): Bytes
    requires AllLetters(s)
  {
    var z := Leading(s, ONE);
    Repeat(0, z) + DigitsOf(256, Val(58, DigitsIn(s[z..])))
  }

  /** What a string decodes to. A limit, even a negative one, never refuses the empty result. */
  ghost function Decoded(s: Bytes, maxLength: int): Option<Bytes> {
    var t := Trim(s);
    if !AllLetters(t) then None
    else if Meaning(t) != [] && |Meaning(t)| > maxLength then None
    else Some(Meaning(t))
  }

  // ---------- Round trips ----------

  lemma EncodedParts(bytes: Bytes)
    ensures var z := Leading(bytes, 0); var v := Val(256, bytes[z..]);
      && AllBelow(58, DigitsOf(58, v)) && AllLetters(Encoded(bytes))
      && Leading(Encoded(bytes), ONE) == z
      && Encoded(bytes)[z..] == Letters(DigitsOf(58, v))
      && forall k :: 0 <= k < |Encoded(bytes)| ==> !IsSpace(Encoded(bytes)[k]) && Encoded(bytes)[k] != 0
  {
    hide Val, DigitsOf, Leading, Letter, Digit, IsSpace;
    var z := Leading(bytes, 0);
    var v := Val(256, bytes[z..]);
    ValDigits(58, v);
    var ds := DigitsOf(58, v);
    var s := Encoded(bytes);
    LetterDigit(0);
    OneIsLetter();
    forall k | 0 <= k < |ds| ensures LetterGood(Letters(ds)[k]) && (ds[k] != 0 ==> Letters(ds)[k] != ONE) {
      LetterDigit(ds[k]);
    }
    forall k | 0 <= k < |s| ensures LetterGood(s[k]) {
      assert s[k] == if k < z then ONE else Letters(ds)[k - z];
    }
    LeadingIs(s, ONE, z);
  }

  ghost predicate LetterGood(c: Byte) {
    Digit(c) != -1 && !IsSpace(c) && c != 0
  }

  lemma OneIsLetter()
    ensures Digit(ONE) == 0 && !IsSpace(ONE)
  {
  }

  lemma DigitsOfLetters(ds: seq<Byte>)
    requires AllBelow(58, ds)
    ensures AllLetters(Letters(ds)) && DigitsIn(Letters(ds)) == ds
  {
    hide Letter, Digit, IsSpace;
    forall k | 0 <= k < |ds| ensures Digit(Letters(ds)[k]) == ds[k] { LetterDigit(ds[k]); }
  }

  lemma LettersOfDigits(s: Bytes)
    requires AllLetters(s)
    ensures AllBelow(58, DigitsIn(s)) && Letters(DigitsIn(s)) == s
  {
    hide Letter, Digit, IsSpace;
    forall k | 0 <= k < |s| ensures Letter(DigitsIn(s)[k]) == s[k] { DigitLetter(s[k]); }
  }

  lemma MeaningEncoded(bytes: Bytes)
    ensures AllLetters(Encoded(bytes)) && Meaning(Encoded(bytes)) == bytes
  {
    hide Val, DigitsOf, Leading, Letter, Digit, IsSpace, Encoded;
    var z := Leading(bytes, 0);
    var v := Val(256, bytes[z..]);
    EncodedParts(bytes);
    DigitsOfLetters(DigitsOf(58, v));
    ValDigits(58, v);
    DigitsVal(256, bytes[z..]);
    assert Repeat(0, z) + bytes[z..] == bytes;
  }

  /** Decoding an encoded byte string gives it back, leading zeros and all, exactly when the
    * limit allows its length; the empty string passes any limit.
    */
  lemma DecodeEncoded(bytes: Bytes, maxLength: int)
    ensures Decoded(Encoded(bytes), maxLength) == if bytes == [] || |bytes| <= maxLength then Some(bytes) else None
  {
    hide Encoded, Meaning, IsSpace, Digit;
    var s := Encoded(bytes);
    EncodedParts(bytes);
    MeaningEncoded(bytes);
    TrimIs(s, 0, |s|);
    assert s[0..|s|] == s;
  }

  lemma EncodeMeaning(s: Bytes)
    requires AllLetters(s)
    ensures Encoded(Meaning(s)) == s
  {
    hide Val, DigitsOf, Leading, Letter, Digit, IsSpace;
    var z := Leading(s, ONE);
    var ds := DigitsIn(s[z..]);
    var v := Val(58, ds);
    LettersOfDigits(s[z..]);
    if ds != [] { DigitLetter(s[z]); }
    DigitsVal(58, ds);
    ValDigits(256, v);
    var bytes := Meaning(s);
    LeadingIs(bytes, 0, z);
    assert bytes[z..] == DigitsOf(256, v);
    assert Repeat(ONE, z) + s[z..] == s;
  }

  /** Encoding what a string decodes to gives the string without the whitespace around it. */
  lemma EncodeDecoded(s: Bytes, maxLength: int)
    requires Decoded(s, maxLength).Some?
    ensures Encoded(Decoded(s, maxLength).value) == Trim(s)
  {
    hide Encoded, Meaning, Trim;
    EncodeMeaning(Trim(s));
  }

  // ---------- The buffers are large enough ----------

  lemma Pow256To8()
    ensures Pow(256, 8) <= Pow(58, 11)
  {
    hide Pow;
    Small(256);
    Small(58);
    PowAdd(256, 4, 4);
    PowAdd(58, 4, 4);
    PowAdd(58, 8, 3);
  }

  lemma Small(b: nat)
    ensures Pow(b, 1) == b && Pow(b, 2) == b * b && Pow(b, 3) == b * (b * b) && Pow(b, 4) == b * (b * (b * b))
  {
    assert Pow(b, 1) == b * Pow(b, 0);
    assert Pow(b, 2) == b * Pow(b, 1);
    assert Pow(b, 3) == b * Pow(b, 2);
    assert Pow(b, 4) == b * Pow(b, 3);
  }

  /** 58 to the 71st is just below 256 to the 52nd. */
  lemma Pow58To71()
    ensures Pow(58, 71) <= Pow(256, 52)
  {
    hide Pow;
    Small(58);
    Small(256);
    PowAdd(58, 4, 4);
    PowAdd(58, 8, 8);
    PowAdd(58, 16, 16);
    PowAdd(58, 32, 32);
    PowAdd(58, 64, 4);
    PowAdd(58, 68, 3);
    PowAdd(256, 4, 4);
    PowAdd(256, 8, 8);
    PowAdd(256, 16, 16);
    PowAdd(256, 32, 16);
    PowAdd(256, 48, 4);
  }

  lemma {:induction false} PowStrict(a: nat, b: nat, n: nat)
    requires a < b && n > 0
    ensures Pow(a, n) < Pow(b, n)
  {
    if n == 1 {
      Small(a);
      Small(b);
    } else {
      PowStrict(a, b, n - 1);
      MulStrict(a, Pow(a, n - 1), b, Pow(b, n - 1));
    }
  }

  lemma MulStrict(a: nat, x: nat, b: nat, y: nat)
    requires a < b && x < y
    ensures a * x < b * y
  {
    MulMonotone(a, x, a, y);
    Gap(a, b, y);
  }

  /** If `a^p <= b^q`, then `n` digits in base `a` fit in `m` digits in base `b` once
    * `m / n` is at least `q / p`.
    */
  lemma DigitsFit(a: nat, p: nat, b: nat, q: nat, n: nat, m: nat)
    requires 0 < a && 0 < b && 0 < p && Pow(a, p) <= Pow(b, q) && q * n <= p * m
    ensures Pow(a, n) <= Pow(b, m)
  {
    hide Pow;
    Regrouped(a, n, p);
    Regrouped(b, m, p);
    PowBase(Pow(a, p), Pow(b, q), n);
    PowGrows(b, q, n, p, m);
    if Pow(a, n) > Pow(b, m) {
      PowStrict(Pow(b, m), Pow(a, n), p);
    }
  }

  lemma PowGrows(b: nat, q: nat, n: nat, p: nat, m: nat)
    requires 0 < b && q * n <= p * m
    ensures Pow(Pow(b, q), n) <= Pow(Pow(b, p), m)
  {
    hide Pow;
    PowPow(b, q, n);
    PowPow(b, p, m);
    PowMonotone(b, q * n, p * m);
  }

  lemma Regrouped(a: nat, n: nat, p: nat)
    ensures Pow(Pow(a, n), p) == Pow(Pow(a, p), n)
  {
    hide Pow;
    PowPow(a, n, p);
    PowPow(a, p, n);
    Commute(n, p);
  }

  lemma Commute(n: nat, p: nat)
    ensures n * p == p * n
  {
  }

  lemma EncodeRoom(n: nat)
    ensures Pow(256, n) <= Pow(58, n * 138 / 100 + 1)
  {
    hide Pow;
    Pow256To8();
    DigitsFit(256, 8, 58, 11, n, n * 138 / 100 + 1);
  }

  lemma DecodeRoom(n: nat)
    ensures Pow(58, n) <= Pow(256, n * 733 / 1000 + 1)
  {
    hide Pow;
    Pow58To71();
    DigitsFit(58, 71, 256, 52, n, n * 733 / 1000 + 1);
  }

  // ---------- The methods ----------

  /** What is read so far fits in a buffer sized for everything. */
  lemma NextFits(base: nat, s: seq<Byte>, k: nat, other: nat, size: nat)
    requires 2 <= base && AllBelow(base, s) && k < |s| && Pow(base, |s|) <= Pow(other, size)
    ensures Val(base, s[..k]) * base + s[k] == Val(base, s[..k + 1]) < Pow(other, size)
  {
    hide Pow;
    assert s[..k + 1][..k] == s[..k];
    ValBound(base, s[..k + 1]);
    PowMonotone(base, k + 1, |s|);
  }

  lemma HoldsNothing(base: nat, b: seq<Byte>)
    requires 2 <= base <= 256 && forall k :: 0 <= k < |b| ==> b[k] == 0
    ensures Holds(base, b, 0, 0)
  {
  }

  method Encode(bytes: Bytes) returns (str: Bytes)
    ensures str == Encoded(bytes)
  {
    hide Pow, Val, DigitsOf, Holds, Leading, Letter;
    var zeroes := 0;
    while zeroes < |bytes| && bytes[zeroes] == 0
      invariant 0 <= zeroes <= |bytes|
      invariant forall k :: 0 <= k < zeroes ==> bytes[k] == 0
    {
      zeroes := zeroes + 1;
    }
    LeadingIs(bytes, 0, zeroes);
    var input := bytes[zeroes..];
    var size := |input| * 138 / 100 + 1;
    var b58 := new Byte[size](_ => 0);
    var length := 0;
    EncodeRoom(|input|);
    HoldsNothing(58, b58[..]);
    ValNone(256, input[..0]);
    for k := 0 to |input|
      invariant length <= size && Holds(58, b58[..], length, Val(256, input[..k]))
    {
      NextFits(256, input, k, 58, size);
      length := Absorb(b58, 58, length, 256, input[k], Val(256, input[..k]));
      HoldsRoom(58, b58[..], length, Val(256, input[..k + 1]));
    }
    assert input[..|input|] == input;
    ghost var ds := DigitsOf(58, Val(256, input));
    HoldsDigits(58, b58[..], length, Val(256, input));
    ghost var from := size - length;
    var it := size - length;
    while it < size && b58[it] == 0
      invariant from <= it <= size
      invariant it > from ==> b58[from] == 0
    {
      it := it + 1;
    }
    ValDigits(58, Val(256, input));
    assert length > 0 ==> b58[from + 0] == ds[0];
    assert it == from;
    str := Repeat(ONE, zeroes);
    while it < size
      invariant from <= it <= size
      invariant str == Repeat(ONE, zeroes) + Letters(ds)[..it - from]
    {
      assert b58[it] == ds[it - from];
      str := str + [Letter(b58[it])];
      it := it + 1;
    }
  }

  lemma ValNone(base: nat, s: seq<Byte>)
    requires s == []
    ensures Val(base, s) == 0
  {
  }

  lemma HoldsRoom(base: nat, b: seq<Byte>, length: nat, v: nat)
    requires 2 <= base <= 256 && Holds(base, b, length, v)
    ensures length <= |b|
  {
  }

  lemma HoldsDigits(base: nat, b: seq<Byte>, length: nat, v: nat)
    requires 2 <= base <= 256 && length <= |b| && Holds(base, b, length, v)
    ensures length == |DigitsOf(base, v)| && forall k :: 0 <= k < length ==> b[|b| - length + k] == DigitsOf(base, v)[k]
  {
    hide DigitsOf;
    forall k | 0 <= k < length ensures b[|b| - length + k] == DigitsOf(base, v)[k] {
      assert b[|b| - length..][k] == b[|b| - length + k];
    }
  }

  /** Spaces up to `a`, ones up to `p`, and letters up to `j`. */
  ghost predicate ReadSoFar(s: Bytes, a: nat, p: nat, j: nat) {
    && a <= p <= j <= |s|
    && (forall k :: 0 <= k < a ==> IsSpace(s[k]))
    && (a < |s| ==> !IsSpace(s[a]))
    && (forall k :: a <= k < p ==> s[k] == ONE)
    && AllLetters(s[p..j])
    && (p < j ==> s[p] != ONE)
  }

  lemma ReadStart(s: Bytes, a: nat, p: nat, j: nat)
    requires ReadSoFar(s, a, p, j) && a < j
    ensures |Trim(s)| >= j - a && Trim(s)[..j - a] == s[a..j]
  {
    hide Start, End, Digit, IsSpace;
    OneIsLetter();
    if p < j {
      assert s[p..j][j - 1 - p] == s[j - 1];
      DigitLetter(s[j - 1]);
    }
    assert !IsSpace(s[j - 1]);
    assert Start(s) == a;
  }

  /** What has been read already decides how long the result is at least. */
  lemma ReadBound(s: Bytes, a: nat, p: nat, j: nat)
    requires ReadSoFar(s, a, p, j) && a < j && AllLetters(Trim(s))
    ensures |Meaning(Trim(s))| >= p - a
    ensures p < j ==> |Meaning(Trim(s))| >= p - a + |DigitsOf(256, Val(58, DigitsIn(s[p..j])))|
    ensures Meaning(Trim(s)) != []
  {
    hide Start, End, Digit, IsSpace, Leading, Val, DigitsOf, Trim;
    ReadStart(s, a, p, j);
    var t := Trim(s);
    var z := Leading(t, ONE);
    assert forall k :: 0 <= k < j - a ==> t[k] == t[..j - a][k] == s[a + k];
    if p < j {
      LeadingIs(t, ONE, p - a);
      var ds := DigitsIn(t[z..]);
      assert ds[..j - p] == DigitsIn(s[p..j]);
      ValPrefix(58, ds, j - p);
      DigitsMonotone(256, Val(58, ds[..j - p]), Val(58, ds));
      LettersOfDigits(t[z..]);
      DigitLetter(s[p]);
      CanonicalPositive(58, ds);
      ValDigits(256, Val(58, ds));
    } else {
      assert z >= p - a;
    }
  }

  lemma TooLong(s: Bytes, a: nat, p: nat, j: nat, maxLength: int)
    requires ReadSoFar(s, a, p, j) && a < j
    requires p - a > maxLength || (p < j && p - a + |DigitsOf(256, Val(58, DigitsIn(s[p..j])))| > maxLength)
    ensures Decoded(s, maxLength).None?
  {
    hide Meaning, Trim, Val, DigitsOf, ReadSoFar;
    if AllLetters(Trim(s)) {
      ReadBound(s, a, p, j);
    }
  }

  /** A character that is neither a space nor a letter refuses the string. */
  lemma BadLetter(s: Bytes, j: nat, maxLength: int)
    requires j < |s| && !IsSpace(s[j]) && Digit(s[j]) == -1
    ensures Decoded(s, maxLength).None?
  {
    hide Trim, IsSpace, Digit;
    TrimKeeps(s, j, j);
  }

  /** So does a space between two other characters. */
  lemma InnerSpace(s: Bytes, a: nat, j: nat, q: nat, maxLength: int)
    requires a < j < q < |s| && !IsSpace(s[a]) && IsSpace(s[j]) && !IsSpace(s[q])
    ensures Decoded(s, maxLength).None?
  {
    hide Trim, IsSpace, Digit;
    TrimKeeps(s, j, q);
    SpaceNoLetter(s[j]);
  }

  lemma SpaceNoLetter(c: Byte)
    requires IsSpace(c)
    ensures Digit(c) == -1
  {
  }

  lemma ReadAll(s: Bytes, a: nat, p: nat, j: nat, maxLength: int)
    requires ReadSoFar(s, a, p, j) && forall k :: j <= k < |s| ==> IsSpace(s[k])
    ensures var r := Repeat(0, p - a) + DigitsOf(256, Val(58, DigitsIn(s[p..j])));
      Decoded(s, maxLength) == if r != [] && |r| > maxLength then None else Some(r)
  {
    hide Start, End, Digit, IsSpace, Leading, Val, DigitsOf, Trim;
    if a < j {
      ReadStart(s, a, p, j);
      OneIsLetter();
      if p < j {
        assert s[p..j][j - 1 - p] == s[j - 1];
        DigitLetter(s[j - 1]);
      }
    }
    TrimIs(s, a, j);
    var t := s[a..j];
    forall k | 0 <= k < |t| ensures Digit(t[k]) != -1 {
      OneIsLetter();
      assert t[k] == if a + k < p then ONE else s[p..j][a + k - p];
    }
    LeadingIs(t, ONE, p - a);
    assert t[p - a..] == s[p..j];
  }

  method Decode(s: Bytes, maxLength: int) returns (r: Option<Bytes>)
    requires 0 !in s
    ensures r == Decoded(s, maxLength)
  {
    hide Pow, Val, DigitsOf, Holds, Decoded, Digit, IsSpace;
    var a := 0;
    while a < |s| && IsSpace(s[a])
      invariant 0 <= a <= |s|
      invariant forall k :: 0 <= k < a ==> IsSpace(s[k])
    {
      a := a + 1;
    }
    var p := a;
    var zeroes := 0;
    while p < |s| && s[p] == ONE
      invariant p == a + zeroes && ReadSoFar(s, a, p, p)
      invariant zeroes > 0 ==> zeroes <= maxLength
    {
      zeroes := zeroes + 1;
      p := p + 1;
      if zeroes > maxLength {
        TooLong(s, a, p, p, maxLength);
        return None;
      }
    }
    var size := (|s| - p) * 733 / 1000 + 1;
    var b256 := new Byte[size](_ => 0);
    DecodeRoom(|s| - p);
    HoldsNothing(256, b256[..]);
    ValNone(58, s[p..p]);
    var length := 0;
    var j := p;
    assert DigitsIn(s[p..j]) == [];
    while j < |s| && !IsSpace(s[j])
      invariant ReadSoFar(s, a, p, j)
      invariant p < |s| ==> s[p] != ONE
      invariant j > a ==> zeroes + length <= maxLength
      invariant length <= size && Holds(256, b256[..], length, Val(58, DigitsIn(s[p..j])))
    {
      var carry := Digit(s[j]);
      if carry == -1 {
        BadLetter(s, j, maxLength);
        return None;
      }
      ghost var ds := DigitsIn(s[p..j]);
      NextLetter(s, p, j, size);
      length := Absorb(b256, 256, length, 58, carry, Val(58, ds));
      j := j + 1;
      HoldsRoom(256, b256[..], length, Val(58, DigitsIn(s[p..j])));
      HoldsDigits(256, b256[..], length, Val(58, DigitsIn(s[p..j])));
      if length + zeroes > maxLength {
        TooLong(s, a, p, j, maxLength);
        return None;
      }
    }
    var q := j;
    while q < |s| && IsSpace(s[q])
      invariant j <= q <= |s|
      invariant forall k :: j <= k < q ==> IsSpace(s[k])
    {
      q := q + 1;
    }
    if q != |s| {
      InnerSpace(s, a, j, q, maxLength);
      return None;
    }
    ghost var ds := DigitsOf(256, Val(58, DigitsIn(s[p..j])));
    HoldsDigits(256, b256[..], length, Val(58, DigitsIn(s[p..j])));
    ReadAll(s, a, p, j, maxLength);
    LengthsAgree(a, p, j, s, length, ds);
    var vch := Collect(b256, size - length, zeroes);
    assert vch == Repeat(0, zeroes) + ds;
    return Some(vch);
  }

  /** The zeros counted and the rest of the buffer. */
  method Collect(b: array<Byte>, start: nat, zeroes: nat) returns (vch: Bytes)
    requires start <= b.Length
    ensures vch == Repeat(0, zeroes) + b[start..]
  {
    vch := Repeat(0, zeroes);
    var it := start;
    while it < b.Length
      invariant start <= it <= b.Length
      invariant vch == Repeat(0, zeroes) + b[start..it]
    {
      vch := vch + [b[it]];
      it := it + 1;
    }
  }

  lemma LengthsAgree(a: nat, p: nat, j: nat, s: Bytes, length: nat, ds: Bytes)
    requires ReadSoFar(s, a, p, j) && ds == DigitsOf(256, Val(58, DigitsIn(s[p..j]))) && length == |ds|
    ensures j == a ==> Repeat(0, p - a) + ds == []
  {
    ValDigits(256, 0);
  }

  /** One more letter: its digit, and room for it. */
  lemma NextLetter(s: Bytes, p: nat, j: nat, size: nat)
    requires p <= j < |s| && AllLetters(s[p..j]) && Digit(s[j]) != -1 && Pow(58, |s| - p) <= Pow(256, size)
    ensures AllLetters(s[p..j + 1])
    ensures Val(58, DigitsIn(s[p..j])) * 58 + Digit(s[j]) == Val(58, DigitsIn(s[p..j + 1])) < Pow(256, size)
  {
    hide Pow, Digit, Val;
    assert s[p..j + 1] == s[p..j] + [s[j]];
    var ds := DigitsIn(s[p..j + 1]);
    assert ds[..j - p] == DigitsIn(s[p..j]);
    PowMonotone(58, j + 1 - p, |s| - p);
    NextFits(58, ds, j - p, 256, size);
    assert ds[..j + 1 - p] == ds;
  }

  /** Decoding with the check for embedded zero bytes first. */
  method DecodeString(s: Bytes, maxLength: int) returns (r: Option<Bytes>)
    ensures r == Decoded(s, maxLength)
  {
    hide Decoded;
    for i := 0 to |s|
      invariant 0 !in s[..i]
    {
      if s[i] == 0 {
        BadLetter(s, i, maxLength);
        return None;
      }
      assert s[..i + 1] == s[..i] + [s[i]];
    }
    assert s[..|s|] == s;
    r := Decode(s, maxLength);
  }


  // ---------- With a checksum ----------

  /** The first four bytes of a hash of the data. */
  ghost predicate FourBytes(hash: Bytes -> Bytes) {
    forall x :: |hash(x)| == 4
  }

  ghost function CheckEncoded(hash: Bytes -> Bytes, bytes: Bytes): Bytes {
    Encoded(bytes + hash(bytes))
  }

  /** The limit with room for the checksum, kept within a 32-bit integer. */
  function Widened(maxLength: int): int {
    if maxLength > INT_MAX - 4 then INT_MAX else maxLength + 4
  }

  ghost function CheckDecoded(hash: Bytes -> Bytes, s: Bytes, maxLength: int): Option<Bytes> {
    var r := Decoded(s, Widened(maxLength));
    if r.None? || |r.value| < 4 then None
    else
      var n := |r.value| - 4;
      if r.value[n..] == hash(r.value[..n]) then Some(r.value[..n]) else None
  }

  method EncodeCheck(hash: Bytes -> Bytes, bytes: Bytes) returns (str: Bytes)
    ensures str == CheckEncoded(hash, bytes)
  {
    str := Encode(bytes + hash(bytes));
  }

  method DecodeCheck(hash: Bytes -> Bytes, s: Bytes, maxLength: int) returns (r: Option<Bytes>)
    ensures r == CheckDecoded(hash, s, maxLength)
  {
    hide Decoded;
    var vch := DecodeString(s, Widened(maxLength));
    if vch.None? || |vch.value| < 4 { return None; }
    var n := |vch.value| - 4;
    if hash(vch.value[..n]) != vch.value[n..] { return None; }
    return Some(vch.value[..n]);
  }

  /** Data comes back from its checksummed form exactly when the widened limit allows it. */
  lemma CheckDecodeEncoded(hash: Bytes -> Bytes, bytes: Bytes, maxLength: int)
    requires FourBytes(hash)
    ensures CheckDecoded(hash, CheckEncoded(hash, bytes), maxLength) ==
      if |bytes| + 4 <= Widened(maxLength) then Some(bytes) else None
  {
    hide Decoded, Encoded;
    var all := bytes + hash(bytes);
    DecodeEncoded(all, Widened(maxLength));
    assert all[..|all| - 4] == bytes && all[|all| - 4..] == hash(bytes);
  }

  /** An accepted checksummed string is the checksummed form of what it decodes to. */
  lemma CheckEncodeDecoded(hash: Bytes -> Bytes, s: Bytes, maxLength: int)
    requires CheckDecoded(hash, s, maxLength).Some?
    ensures CheckEncoded(hash, CheckDecoded(hash, s, maxLength).value) == Trim(s)
  {
    hide Decoded, Encoded, Trim;
    EncodeDecoded(s, Widened(maxLength));
    var all := Decoded(s, Widened(maxLength)).value;
    var n := |all| - 4;
    assert all[..n] + all[n..] == all;
  }
}
