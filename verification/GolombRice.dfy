/** Golomb-Rice codes and compact sizes. */
module GolombRice {
  import opened Powers
  import opened Limbs
  import opened BitStream

  // ---------- Codes ----------

  function Ones(n: nat): (r: Bits)
    ensures |r| == n && forall k :: 0 <= k < n ==> r[k]
  {
    seq(n, _ => true)
  }

  /** The quotient in unary, closed by a zero, and the low `p` bits. */
  ghost function Code(p: nat, x: nat): Bits {
    Ones(x / Pow(2, p)) + [false] + BitsOf(x, p)
  }

  function LeadingOnes(bits: Bits): (q: nat)
    ensures q <= |bits| && (forall k :: 0 <= k < q ==> bits[k]) && (q < |bits| ==> !bits[q])
  {
    if bits == [] || !bits[0] then 0 else 1 + LeadingOnes(bits[1..])
  }

  /** How many bits the next code takes, if it is complete. */
  function CodeLength(p: nat, bits: Bits): Option<nat> {
    var n := LeadingOnes(bits) + 1 + p;
    if n <= |bits| then Some(n) else None
  }

  /** The number of the next code, in a 64-bit word. */
  ghost function CodeValue(p: nat, bits: Bits): nat
    requires CodeLength(p, bits).Some?
  {
    var q := LeadingOnes(bits);
    ((q * Pow(2, p)) % WORD + ValueOf(bits[q + 1..q + 1 + p])) % WORD
  }

  /** A code is recognised whatever follows it. */
  lemma CodeReads(p: nat, x: nat, tail: Bits)
    requires x < WORD
    ensures CodeLength(p, Code(p, x) + tail) == Some(|Code(p, x)|)
    ensures CodeValue(p, Code(p, x) + tail) == x
  {
    hide Pow, BitsOf, LeadingOnes, ValueOf;
    var q := x / Pow(2, p);
    var bits := Code(p, x) + tail;
    LeadingOnesIs(bits, q);
    assert bits[q + 1..q + 1 + p] == BitsOf(x, p);
    ValueOfBits(x, p);
    Parts(x, Pow(2, p));
    Word(q * Pow(2, p));
    Word(x);
  }

  lemma LeadingOnesIs(bits: Bits, q: nat)
    requires q < |bits| && (forall k :: 0 <= k < q ==> bits[k]) && !bits[q]
    ensures LeadingOnes(bits) == q
  {
    hide LeadingOnes;
    var n := LeadingOnes(bits);
    assert n < |bits| ==> !bits[n];
  }

  lemma Word(x: nat)
    ensures x < WORD ==> x % WORD == x
  {
  }

  lemma {:induction false} OnesBits(n: nat, m: nat)
    requires n <= m
    ensures BitsOf(Pow(2, m) - 1, n) == Ones(n)
    decreases n
  {
    if n > 0 {
      PowTwo(m - 1);
      assert (Pow(2, m) - 1) / 2 == Pow(2, m - 1) - 1;
      OnesBits(n - 1, m - 1);
      assert Ones(n) == Ones(n - 1) + [true];
    }
  }

  method Encode(w: BitWriter, p: nat, x: nat)
    requires w.Valid() && p < 64 && x < WORD
    modifies w
    ensures w.Valid() && w.Written() == old(w.Written()) + Code(p, x)
  {
    hide Pow, BitsOf, Flat;
    ghost var start := w.Written();
    Shrinks(x, Pow(2, p));
    var q := x / Pow(2, p);
    ghost var total := q;
    WordIsPow();
    while q > 0
      invariant 0 <= q <= total && w.Valid() && w.Written() == start + Ones(total - q)
    {
      var nbits := if q <= 64 then q else 64;
      OnesBits(nbits, 64);
      w.Write(WORD - 1, nbits);
      assert Ones(total - q) + Ones(nbits) == Ones(total - (q - nbits));
      q := q - nbits;
    }
    w.Write(0, 1);
    ZeroBit();
    w.Write(x, p);
  }

  lemma ZeroBit()
    ensures BitsOf(0, 1) == [false]
  {
    assert BitsOf(0, 0) == [];
  }

  /** Count ones up to and including the zero that closes them. */
  method ReadUnary(r: BitReader) returns (n: Option<nat>)
    requires r.Valid()
    modifies r
    ensures r.Valid()
    ensures n.Some? <==> LeadingOnes(old(r.Left())) < |old(r.Left())|
    ensures n.Some? ==> n.value == LeadingOnes(old(r.Left())) && r.Left() == old(r.Left())[n.value + 1..]
  {
    hide BitsOf, Flat, LeadingOnes, ValueOf;
    ghost var start := r.Left();
    var q := 0;
    var bit := r.Read(1);
    BitValue(start, 0);
    assert start[0..] == start;
    while bit == Some(1)
      invariant r.Valid() && q <= |start| && forall k :: 0 <= k < q ==> start[k]
      invariant bit.Some? <==> q < |start|
      invariant bit.Some? ==> (bit.value == 1 <==> start[q]) && r.Left() == start[q + 1..]
      decreases |start| - q
    {
      q := q + 1;
      bit := r.Read(1);
      BitValue(start, q);
    }
    if bit.None? { return None; }
    LeadingOnesIs(start, q);
    return Some(q);
  }

  method Decode(r: BitReader, p: nat) returns (x: Option<nat>)
    requires r.Valid() && p < 64
    modifies r
    ensures r.Valid()
    ensures x.Some? <==> CodeLength(p, old(r.Left())).Some?
    ensures x.Some? ==> x.value == CodeValue(p, old(r.Left())) && r.Left() == old(r.Left())[CodeLength(p, old(r.Left())).value..]
  {
    hide Pow, BitsOf, Flat, LeadingOnes, ValueOf;
    ghost var start := r.Left();
    var q := ReadUnary(r);
    if q.None? { return None; }
    var low := r.Read(p);
    if low.None? { return None; }
    AfterUnary(start, q.value, p);
    return Some(((q.value * Pow(2, p)) % WORD + low.value) % WORD);
  }

  lemma AfterUnary(start: Bits, q: nat, p: nat)
    requires q + 1 + p <= |start|
    ensures start[q + 1..][..p] == start[q + 1..q + 1 + p] && start[q + 1..][p..] == start[q + 1 + p..]
  {
  }

  lemma BitValue(bits: Bits, q: nat)
    ensures q < |bits| ==> ValueOf(bits[q..][..1]) == if bits[q] then 1 else 0
  {
    if q < |bits| {
      assert bits[q..][..1] == [bits[q]];
      assert ValueOf([bits[q]][..0]) == 0;
    }
  }

  // ---------- Many codes ----------

  /** How many bits the next `n` codes take, if they are complete. */
  function ManyLength(p: nat, bits: Bits, n: nat): Option<nat>
    decreases n
  {
    if n == 0 then Some(0)
    else
      var first := CodeLength(p, bits);
      if first.None? then None
      else
        var others := ManyLength(p, bits[first.value..], n - 1);
        if others.None? then None else Some(first.value + others.value)
  }

  ghost function CodeAll(p: nat, ds: seq<nat>): Bits {
    if ds == [] then [] else Code(p, ds[0]) + CodeAll(p, ds[1..])
  }

  lemma {:induction false} CodeAllAppend(p: nat, ds: seq<nat>, d: nat)
    ensures CodeAll(p, ds + [d]) == CodeAll(p, ds) + Code(p, d)
  {
    hide Code;
    if ds == [] {
      assert ([d])[1..] == [];
      assert ds + [d] == [d];
      assert CodeAll(p, []) == [];
    } else {
      assert (ds + [d])[1..] == ds[1..] + [d];
      CodeAllAppend(p, ds[1..], d);
    }
  }

  /** Codes in a row are recognised whatever follows them. */
  lemma {:induction false} ManyReads(p: nat, ds: seq<nat>, tail: Bits)
    requires forall i :: 0 <= i < |ds| ==> ds[i] < WORD
    ensures ManyLength(p, CodeAll(p, ds) + tail, |ds|) == Some(|CodeAll(p, ds)|)
  {
    hide Code, CodeLength, CodeValue;
    if ds != [] {
      var c, rest := Code(p, ds[0]), CodeAll(p, ds[1..]) + tail;
      var bits := CodeAll(p, ds) + tail;
      assert bits == c + rest;
      CodeReads(p, ds[0], rest);
      ManyReads(p, ds[1..], tail);
      assert bits[|c|..] == rest;
    }
  }

  // ---------- Compact sizes ----------

  const MAX_SIZE: nat := 0x0200_0000

  /** The low bytes of a number, the least significant first. */
  function LittleEndian(n: nat, k: nat): (r: seq<Byte>)
    ensures |r| == k
    decreases k
  {
    if k == 0 then [] else [n % 256] + LittleEndian(n / 256, k - 1)
  }

  function FromLittleEndian(s: seq<Byte>): nat {
    if s == [] then 0 else s[0] + 256 * FromLittleEndian(s[1..])
  }

  lemma {:induction false} LittleEndianBack(n: nat, k: nat)
    requires n < Pow(256, k)
    ensures FromLittleEndian(LittleEndian(n, k)) == n
    decreases k
  {
    if k > 0 {
      LittleEndianBack(n / 256, k - 1);
      assert LittleEndian(n, k)[1..] == LittleEndian(n / 256, k - 1);
    }
  }

  function WriteCompactSize(n: nat): seq<Byte> {
    if n < 253 then [n]
    else if n <= 0xffff then [253] + LittleEndian(n, 2)
    else if n <= 0xffff_ffff then [254] + LittleEndian(n, 4)
    else [255] + LittleEndian(n, 8)
  }

  /** A field of `k` bytes that must be at least `least`, and within the size limit. */
  function ReadField(s: seq<Byte>, k: nat, least: nat): Option<(nat, seq<Byte>)> {
    if |s| < k then None
    else
      var n := FromLittleEndian(s[..k]);
      if n < least || n > MAX_SIZE then None else Some((n, s[k..]))
  }

  function ReadCompactSize(s: seq<Byte>): (r: Option<(nat, seq<Byte>)>)
    ensures r.Some? ==> r.value.0 <= MAX_SIZE
  {
    if s == [] then None
    else if s[0] < 253 then Some((s[0], s[1..]))
    else if s[0] == 253 then ReadField(s[1..], 2, 253)
    else if s[0] == 254 then ReadField(s[1..], 4, 0x1_0000)
    else ReadField(s[1..], 8, 0x1_0000_0000)
  }

  lemma FieldBack(n: nat, k: nat, least: nat, tail: seq<Byte>)
    requires n < Pow(256, k) && least <= n
    ensures ReadField(LittleEndian(n, k) + tail, k, least) == if n <= MAX_SIZE then Some((n, tail)) else None
  {
    hide LittleEndian, FromLittleEndian;
    LittleEndianBack(n, k);
    var s := LittleEndian(n, k) + tail;
    assert s[..k] == LittleEndian(n, k) && s[k..] == tail;
  }

  lemma FieldSizes()
    ensures Pow(256, 2) == 0x1_0000 && Pow(256, 4) == 0x1_0000_0000 && Pow(256, 8) == WORD
  {
    assert Pow(256, 1) == 256;
    assert Pow(256, 2) == 0x1_0000;
    PowAdd(256, 2, 2);
    PowAdd(256, 4, 4);
  }

  /** A size is read back exactly when it is within the limit: larger ones are written but
    * refused by the reader.
    */
  lemma CompactSizeBack(n: nat, tail: seq<Byte>)
    requires n < WORD
    ensures ReadCompactSize(WriteCompactSize(n) + tail) == if n <= MAX_SIZE then Some((n, tail)) else None
  {
    hide LittleEndian, FromLittleEndian, Pow, ReadField;
    FieldSizes();
    var s := WriteCompactSize(n) + tail;
    if n < 253 {
      assert s[1..] == tail;
    } else if n <= 0xffff {
      FieldBack(n, 2, 253, tail);
      assert s[1..] == LittleEndian(n, 2) + tail;
    } else if n <= 0xffff_ffff {
      FieldBack(n, 4, 0x1_0000, tail);
      assert s[1..] == LittleEndian(n, 4) + tail;
    } else {
      FieldBack(n, 8, 0x1_0000_0000, tail);
      assert s[1..] == LittleEndian(n, 8) + tail;
    }
  }

  lemma {:induction false} LittleEndianForth(s: seq<Byte>)
    ensures FromLittleEndian(s) < Pow(256, |s|)
    ensures LittleEndian(FromLittleEndian(s), |s|) == s
  {
    if s != [] {
      LittleEndianForth(s[1..]);
      LowByte(s[0], FromLittleEndian(s[1..]));
      assert s == [s[0]] + s[1..];
    }
  }

  lemma LowByte(b: Byte, n: nat)
    ensures (b + 256 * n) % 256 == b && (b + 256 * n) / 256 == n
  {
  }

  /** What is written, byte by byte: up to 252 as it is, otherwise a mark for the width and then
    * the lowest byte first.
    */
  lemma CompactSizeForm(n: nat)
    ensures n <= 252 ==> WriteCompactSize(n) == [n]
    ensures 253 <= n < 0x1_0000 ==> WriteCompactSize(n) == [253, n % 256, n / 256]
    ensures 0x1_0000 <= n < 0x1_0000_0000 ==>
      WriteCompactSize(n) == [254, n % 256, (n / 256) % 256, (n / 0x1_0000) % 256, n / 0x100_0000]
    ensures 0x1_0000_0000 <= n ==> |WriteCompactSize(n)| == 9 && WriteCompactSize(n)[0] == 255
  {
    LittleEndianTwo(n);
    LittleEndianTwo(n / 0x1_0000);
    assert LittleEndian(n, 4) == LittleEndian(n, 2) + LittleEndian(n / 0x1_0000, 2);
  }

  lemma LittleEndianTwo(n: nat)
    ensures LittleEndian(n, 2) == [n % 256, (n / 256) % 256]
  {
    assert LittleEndian(n / 256, 1) == [(n / 256) % 256] + LittleEndian(n / 256 / 256, 0);
  }

  /** Only the shortest form of a size within the limit is read. */
  lemma CompactSizeCanonical(s: seq<Byte>)
    ensures var r := ReadCompactSize(s); r.Some? ==> s == WriteCompactSize(r.value.0) + r.value.1 && r.value.0 <= 0x0200_0000
  {
    hide LittleEndian, FromLittleEndian, Pow;
    var r := ReadCompactSize(s);
    if r.Some? {
      var t := s[1..];
      assert s == [s[0]] + t;
      FieldSizes();
      if s[0] == 253 {
        LittleEndianForth(t[..2]);
      } else if s[0] == 254 {
        LittleEndianForth(t[..4]);
      }
    }
  }
}
