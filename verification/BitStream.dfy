/** Bits packed into bytes, the most significant first, through a buffer of one byte. */
module BitStream {
  import opened Powers
  import opened Limbs

  type Byte = x: int | 0 <= x < 256
  type Bits = seq<bool>

  datatype Option<T> = None | Some(value: T)

  const WORD: nat := 0x1_0000_0000_0000_0000

  // ---------- Numbers as bits ----------

  /** The low `n` bits of a number. */
  ghost function BitsOf(x: nat, n: nat): (r: Bits)
    ensures |r| == n
    decreases n
  {
    if n == 0 then [] else BitsOf(x / 2, n - 1) + [x % 2 == 1]
  }

  ghost function ValueOf(bits: Bits): nat {
    if bits == [] then 0 else 2 * ValueOf(bits[..|bits| - 1]) + if bits[|bits| - 1] then 1 else 0
  }

  lemma PowTwo(n: nat)
    ensures Pow(2, n + 1) == 2 * Pow(2, n)
  {
  }

  /** A number without its low `n` bits. */
  function Down(x: nat, n: nat): (r: nat)
    ensures r <= x
  {
    Shrinks(x, Pow(2, n));
    x / Pow(2, n)
  }

  lemma {:induction false} BitsSplit(x: nat, a: nat, b: nat)
    ensures BitsOf(x, a + b) == BitsOf(Down(x, b), a) + BitsOf(x, b)
    decreases b
  {
    hide Pow;
    if b == 0 {
      PowZero();
      assert x / 1 == x;
    } else {
      BitsSplit(x / 2, a, b - 1);
      PowTwo(b - 1);
      HalfTwice(x, Pow(2, b - 1));
      assert a + b - 1 == a + (b - 1);
    }
  }

  lemma PowZero()
    ensures Pow(2, 0) == 1
  {
  }

  lemma HalfTwice(x: nat, p: nat)
    requires p > 0
    ensures (x / 2) / p == x / (2 * p)
  {
    var h := x / 2;
    Parts(x, 2);
    Parts(h, p);
    var q, r := h / p, h % p;
    assert x == q * (2 * p) + (2 * r + x % 2) by { Assoc(q, 2, p); Swap(q, 2, p); }
    Divides(x, 2 * p, q, 2 * r + x % 2);
  }

  /** Only the low bits matter. */
  lemma {:induction false} BitsMod(x: nat, y: nat, n: nat)
    requires x % Pow(2, n) == y % Pow(2, n)
    ensures BitsOf(x, n) == BitsOf(y, n)
    decreases n
  {
    if n > 0 {
      ModHalf(x, Pow(2, n - 1));
      ModHalf(y, Pow(2, n - 1));
      BitsMod(x / 2, y / 2, n - 1);
    }
  }

  lemma ModHalf(x: nat, p: nat)
    requires p > 0
    ensures x % (2 * p) == 2 * ((x / 2) % p) + x % 2
  {
    var h := x / 2;
    Parts(x, 2);
    Parts(h, p);
    var q, r := h / p, h % p;
    assert x == q * (2 * p) + (2 * r + x % 2) by { Assoc(q, 2, p); Swap(q, 2, p); }
    Divides(x, 2 * p, q, 2 * r + x % 2);
  }

  lemma {:induction false} ValueOfBits(x: nat, n: nat)
    ensures ValueOf(BitsOf(x, n)) == x % Pow(2, n)
    decreases n
  {
    if n > 0 {
      ValueOfBits(x / 2, n - 1);
      assert BitsOf(x, n)[..n - 1] == BitsOf(x / 2, n - 1);
      ModHalf(x, Pow(2, n - 1));
    }
  }

  lemma {:induction false} ValueOfBound(bits: Bits)
    ensures ValueOf(bits) < Pow(2, |bits|)
  {
    if bits != [] {
      ValueOfBound(bits[..|bits| - 1]);
    }
  }

  lemma {:induction false} ValueOfConcat(s: Bits, t: Bits)
    ensures ValueOf(s + t) == ValueOf(s) * Pow(2, |t|) + ValueOf(t)
  {
    if t == [] {
      assert s + t == s;
    } else {
      var n := |t| - 1;
      ValueOfConcat(s, t[..n]);
      assert (s + t)[..|s + t| - 1] == s + t[..n];
      Swap(ValueOf(s), 2, Pow(2, n));
    }
  }

  /** A number made of a high part and a low part. */
  lemma BitsJoin(t: nat, a: nat, v: nat, b: nat)
    requires v < Pow(2, b)
    ensures BitsOf(t * Pow(2, b) + v, a + b) == BitsOf(t, a) + BitsOf(v, b)
  {
    hide Pow, BitsOf;
    var x := t * Pow(2, b) + v;
    Divides(x, Pow(2, b), t, v);
    Divides(v, Pow(2, b), 0, v);
    BitsSplit(x, a, b);
    BitsMod(x, v, b);
  }

  /** The highest of the bits comes first. */
  lemma {:induction false} BitsAt(x: nat, n: nat, k: nat)
    requires k < n
    ensures BitsOf(x, n)[k] <==> (x / Pow(2, n - 1 - k)) % 2 == 1
    decreases n
  {
    if k < n - 1 {
      BitsAt(x / 2, n - 1, k);
      PowTwo(n - 2 - k);
      HalfTwice(x, Pow(2, n - 2 - k));
    }
  }

  /** The bits of a list of bytes. */
  ghost function Flat(bytes: seq<Byte>): (r: Bits)
    ensures |r| == 8 * |bytes|
  {
    if bytes == [] then [] else Flat(bytes[..|bytes| - 1]) + BitsOf(bytes[|bytes| - 1], 8)
  }

  lemma FlatAppend(bytes: seq<Byte>, b: Byte)
    ensures Flat(bytes + [b]) == Flat(bytes) + BitsOf(b, 8)
  {
    assert (bytes + [b])[..|bytes|] == bytes;
  }

  lemma {:induction false} FlatConcat(a: seq<Byte>, b: seq<Byte>)
    ensures Flat(a + b) == Flat(a) + Flat(b)
  {
    hide BitsOf;
    if b == [] {
      assert a + b == a;
    } else {
      var n := |b| - 1;
      assert (a + b)[..|a + b| - 1] == a + b[..n];
      FlatConcat(a, b[..n]);
    }
  }

  lemma FlatFirst(bytes: seq<Byte>)
    requires bytes != []
    ensures Flat(bytes) == BitsOf(bytes[0], 8) + Flat(bytes[1..])
  {
    hide BitsOf;
    assert bytes == [bytes[0]] + bytes[1..];
    FlatConcat([bytes[0]], bytes[1..]);
    FlatAppend([], bytes[0]);
    assert [] + [bytes[0]] == [bytes[0]];
    assert Flat([]) == [];
  }

  // ---------- Writing ----------

  function Min(a: int, b: int): (m: int)
    ensures m <= a && m <= b && (m == a || m == b)
  {
    if a < b then a else b
  }

  /** The low `left` bits of a word, shifted to its top and then down to the free bits of a byte. */
  function Aligned(data: nat, left: nat, offset: nat): nat
    requires 0 < left <= 64
  {
    Shrinks((data * Pow(2, 64 - left)) % WORD, Pow(2, 56 + offset));
    ((data * Pow(2, 64 - left)) % WORD) / Pow(2, 56 + offset)
  }

  class BitWriter {
    var out: seq<Byte>
    var buffer: Byte
    var offset: nat

    /** The unused low bits of the buffer are clear. */
    ghost predicate Valid()
      reads this
    {
      offset < 8 && buffer % Pow(2, 8 - offset) == 0
    }

    /** What has been written. */
    ghost function Written(): Bits
      reads this
      requires Valid()
    {
      Flat(out) + BitsOf(buffer, 8)[..offset]
    }

    constructor (start: seq<Byte>)
      ensures Valid() && Written() == Flat(start) && offset == 0 && out == start
    {
      out, buffer, offset := start, 0, 0;
    }

    /** Append the low `nbits` bits of a word. */
    method Write(data: nat, nbits: nat)
      requires Valid() && data < WORD && nbits <= 64
      modifies this
      ensures Valid() && Written() == old(Written()) + BitsOf(data, nbits)
    {
      hide Pow, BitsOf, Flat, Or, Aligned;
      var left := nbits;
      ghost var start := Written();
      BitsSplit(data, nbits, 0);
      assert BitsOf(data, 0) == [];
      while left > 0
        invariant 0 <= left <= nbits && Valid()
        invariant Written() + BitsOf(data, left) == start + BitsOf(data, nbits)
      {
        var bits := Min(8 - offset, left);
        WriteStep(data, left, offset, buffer, bits);
        BitsSplit(data, bits, left - bits);
        buffer := Or(buffer, Aligned(data, left, offset));
        offset := offset + bits;
        left := left - bits;
        if offset == 8 {
          FlatAppend(out, buffer);
          out, buffer, offset := out + [buffer], 0, 0;
          ZeroClear();
        }
      }
      assert BitsOf(data, left) == [];
    }

    /** Write out a started byte, padded with zeros. */
    method Flush()
      requires Valid()
      modifies this
      ensures Valid() && offset == 0
      ensures old(Written()) <= Flat(out) && |Flat(out)| < |old(Written())| + 8
    {
      hide Pow, BitsOf;
      if offset == 0 { return; }
      FlatAppend(out, buffer);
      out, buffer, offset := out + [buffer], 0, 0;
      ZeroClear();
    }
  }

  lemma ZeroClear()
    ensures 0 % Pow(2, 8) == 0
  {
    Divides(0, Pow(2, 8), 0, 0);
  }

  /** One turn of the writing loop: the leading bits that fit are moved into the buffer. */
  lemma WriteStep(data: nat, left: nat, offset: nat, buffer: Byte, bits: nat)
    requires 0 < left <= 64 && offset < 8 && bits == Min(8 - offset, left) && buffer % Pow(2, 8 - offset) == 0
    ensures Or(buffer, Aligned(data, left, offset)) < 256
    ensures Or(buffer, Aligned(data, left, offset)) % Pow(2, 8 - offset - bits) == 0
    ensures BitsOf(Or(buffer, Aligned(data, left, offset)), 8)[..offset + bits]
         == BitsOf(buffer, 8)[..offset] + BitsOf(Down(data, left - bits), bits)
  {
    hide Pow, BitsOf, Or, Aligned;
    var room := 8 - offset;
    var top := (data % Pow(2, left)) / Pow(2, left - bits);
    ShiftedWord(data, left, offset, bits);
    TopBits(data, left, bits);
    BufferOr(buffer, room, top, bits);
    BitsMod(top, data / Pow(2, left - bits), bits);
    JoinBuffer(buffer, offset, top, bits);
  }

  /** The two shifts leave the leading bits at the place of the free bits of the buffer. */
  lemma ShiftedWord(data: nat, left: nat, offset: nat, bits: nat)
    requires 0 < left <= 64 && offset < 8 && bits == Min(8 - offset, left)
    ensures Aligned(data, left, offset) == ((data % Pow(2, left)) / Pow(2, left - bits)) * Pow(2, 8 - offset - bits)
  {
    hide Pow;
    var d, p := data % Pow(2, left), Pow(2, 64 - left);
    WordIsPow();
    PowAdd(2, 64 - left, left);
    ModShift(data, p, Pow(2, left));
    if bits == left {
      PowZero();
      PowAdd(2, 56 + offset, 8 - offset - left);
      assert 64 - left == 56 + offset + (8 - offset - left);
      Assoc(d, Pow(2, 56 + offset), Pow(2, 8 - offset - left));
      Swap(d, Pow(2, 56 + offset), Pow(2, 8 - offset - left));
      Divides(d * p, Pow(2, 56 + offset), d * Pow(2, 8 - offset - left), 0);
      assert d / 1 == d;
    } else {
      PowZero();
      PowAdd(2, 64 - left, left - bits);
      assert 56 + offset == 64 - left + (left - bits);
      CancelShift(d, p, Pow(2, left - bits));
    }
  }

  lemma WordIsPow()
    ensures Pow(2, 64) == WORD
  {
    hide Pow;
    PowersOfBase(0);
    PowAdd(2, 32, 32);
  }

  lemma ModShift(x: nat, p: nat, q: nat)
    requires p > 0 && q > 0
    ensures (x * p) % (p * q) == (x % q) * p
  {
    var h, l := x / q, x % q;
    Parts(x, q);
    Distribute(p, h * q, l);
    Swap(p, h, q);
    Gap(l, q, p);
    assert x * p == h * (p * q) + l * p;
    Divides(x * p, p * q, h, l * p);
  }

  lemma CancelShift(d: nat, p: nat, q: nat)
    requires p > 0 && q > 0
    ensures (d * p) / (p * q) == d / q
  {
    var h, l := d / q, d % q;
    Parts(d, q);
    Distribute(p, h * q, l);
    Swap(p, h, q);
    Gap(l, q, p);
    assert d * p == h * (p * q) + l * p;
    Divides(d * p, p * q, h, l * p);
  }

  lemma TopBits(data: nat, left: nat, bits: nat)
    requires bits <= left
    ensures var top := (data % Pow(2, left)) / Pow(2, left - bits);
      top < Pow(2, bits) && top % Pow(2, bits) == (data / Pow(2, left - bits)) % Pow(2, bits)
  {
    hide Pow;
    PowAdd(2, left - bits, bits);
    TopParts(data, Pow(2, left - bits), Pow(2, bits));
  }

  lemma TopParts(x: nat, p: nat, q: nat)
    requires p > 0 && q > 0
    ensures (x % (p * q)) / p < q && ((x % (p * q)) / p) % q == (x / p) % q
  {
    var y := x / p;
    Parts(x, p);
    Parts(y, q);
    var h, m, l := y / q, y % q, x % p;
    Distribute(p, h * q, m);
    Swap(p, h, q);
    Gap(m, q, p);
    assert x == h * (p * q) + (m * p + l);
    Divides(x, p * q, h, m * p + l);
    Divides(m * p + l, p, m, l);
    Divides(m, q, 0, m);
  }

  /** The buffer has room for the bits, so or adds. */
  lemma BufferOr(buffer: Byte, room: nat, top: nat, bits: nat)
    requires 0 < room <= 8 && bits <= room && buffer % Pow(2, room) == 0 && top < Pow(2, bits)
    ensures var low := Pow(2, room - bits);
      && Or(buffer, top * low) == buffer + top * low < 256
      && (buffer + top * low) % low == 0
  {
    hide Pow;
    var m, low := buffer / Pow(2, room), Pow(2, room - bits);
    Parts(buffer, Pow(2, room));
    PowAdd(2, bits, room - bits);
    Gap(top, Pow(2, bits), low);
    OrDisjoint(buffer, m, top * low, room);
    PowAdd(2, room, 8 - room);
    Pow8();
    RoomBelow(buffer, m, Pow(2, room), Pow(2, 8 - room));
    Multiple(m, Pow(2, bits), low, top);
  }

  lemma Pow8()
    ensures Pow(2, 8) == 256
  {
  }

  lemma RoomBelow(v: nat, m: nat, p: nat, q: nat)
    requires v == m * p && v < p * q
    ensures v + p <= p * q
  {
    if m >= q {
      MulMonotone(q, p, m, p);
    } else {
      Gap(m, q, p);
    }
  }

  lemma Multiple(m: nat, p: nat, low: nat, top: nat)
    requires low > 0
    ensures (m * (p * low) + top * low) % low == 0
  {
    Assoc(m, p, low);
    Distribute(low, m * p, top);
    Divides(m * (p * low) + top * low, low, m * p + top, 0);
  }

  lemma JoinBuffer(buffer: Byte, offset: nat, top: nat, bits: nat)
    requires offset < 8 && bits <= 8 - offset && buffer % Pow(2, 8 - offset) == 0 && top < Pow(2, bits)
    ensures BitsOf(buffer + top * Pow(2, 8 - offset - bits), 8)[..offset + bits] == BitsOf(buffer, 8)[..offset] + BitsOf(top, bits)
  {
    hide Pow, BitsOf;
    var room, low := 8 - offset, 8 - offset - bits;
    var m := buffer / Pow(2, room);
    Parts(buffer, Pow(2, room));
    PowAdd(2, bits, low);
    JoinNumbers(m, Pow(2, bits), Pow(2, low), top);
    BitsHigh(m, offset, room);
    BitsHigh(m * Pow(2, bits) + top, offset + bits, low);
    BitsJoin(m, offset, top, bits);
  }

  lemma JoinNumbers(m: nat, p: nat, q: nat, top: nat)
    ensures m * (p * q) + top * q == (m * p + top) * q
  {
    Assoc(m, p, q);
    Distribute(q, m * p, top);
  }

  lemma BitsHigh(t: nat, a: nat, b: nat)
    ensures BitsOf(t * Pow(2, b), a + b)[..a] == BitsOf(t, a)
  {
    hide Pow, BitsOf;
    BitsJoin(t, a, 0, b);
  }

  // ---------- Reading ----------

  /** The `bits` bits of a byte from `offset` on, as a number. */
  function Chunk(buffer: Byte, offset: nat, bits: nat): nat
    requires bits <= 8
  {
    Shrinks((buffer * Pow(2, offset)) % 256, Pow(2, 8 - bits));
    ((buffer * Pow(2, offset)) % 256) / Pow(2, 8 - bits)
  }

  class BitReader {
    var rest: seq<Byte>
    var buffer: Byte
    var offset: nat

    ghost predicate Valid()
      reads this
    {
      1 <= offset <= 8
    }

    /** What is left to read. */
    ghost function Left(): Bits
      reads this
      requires Valid()
    {
      BitsOf(buffer, 8)[offset..] + Flat(rest)
    }

    constructor (bytes: seq<Byte>)
      ensures Valid() && Left() == Flat(bytes) && offset == 8 && rest == bytes
    {
      rest, buffer, offset := bytes, 0, 8;
    }

    /** The next `nbits` bits as a number, or nothing when the data ends before. */
    method Read(nbits: nat) returns (r: Option<nat>)
      requires Valid() && nbits <= 64
      modifies this
      ensures Valid()
      ensures r.Some? <==> |old(Left())| >= nbits
      ensures r.Some? ==> r.value == ValueOf(old(Left())[..nbits]) && Left() == old(Left())[nbits..]
    {
      hide Pow, BitsOf, Flat, Or, Chunk, ValueOf;
      ghost var start := Left();
      var data, left := 0, nbits;
      ValueOfNone(start[..0]);
      while left > 0
        invariant 0 <= left <= nbits && 1 <= offset <= 8 && nbits - left <= |start|
        invariant BitsOf(buffer, 8)[offset..] + Flat(rest) == start[nbits - left..]
        invariant 0 <= data == ValueOf(start[..nbits - left])
      {
        if offset == 8 {
          if rest == [] {
            FlatNone();
            return None;
          }
          FlatFirst(rest);
          buffer, rest, offset := rest[0], rest[1..], 0;
        }
        var bits := Min(8 - offset, left);
        ghost var done := nbits - left;
        ReadStep(data, start[..done], buffer, offset, bits);
        ReadMove(start, done, BitsOf(buffer, 8), offset, bits, Flat(rest));
        data := (data * Pow(2, bits)) % WORD;
        data := Or(data, Chunk(buffer, offset, bits));
        offset := offset + bits;
        left := left - bits;
        assert nbits - left == done + bits;
      }
      return Some(data);
    }
  }

  lemma ValueOfNone(s: Bits)
    requires s == []
    ensures ValueOf(s) == 0
  {
  }

  lemma FlatNone()
    ensures Flat([]) == []
  {
  }

  lemma ChunkValue(buffer: Byte, offset: nat, bits: nat)
    requires offset + bits <= 8
    ensures Chunk(buffer, offset, bits) == ValueOf(BitsOf(buffer, 8)[offset..offset + bits]) < Pow(2, bits)
  {
    hide Pow, BitsOf, ValueOf, Chunk;
    var low := 8 - offset - bits;
    ChunkNumber(buffer, offset, bits);
    ChunkBits(buffer, offset, bits);
    ValueOfBits(buffer / Pow(2, low), bits);
    Parts(buffer / Pow(2, low), Pow(2, bits));
  }

  lemma ChunkNumber(buffer: Byte, offset: nat, bits: nat)
    requires offset + bits <= 8
    ensures Chunk(buffer, offset, bits) == (buffer / Pow(2, 8 - offset - bits)) % Pow(2, bits)
  {
    hide Pow;
    var low, p := 8 - offset - bits, Pow(2, offset);
    Pow8();
    PowAdd(2, offset, 8 - offset);
    PowAdd(2, offset, low);
    PowAdd(2, low, bits);
    assert low + bits == 8 - offset && 8 - bits == offset + low;
    ModShift(buffer, p, Pow(2, 8 - offset));
    CancelShift(buffer % Pow(2, 8 - offset), p, Pow(2, low));
    TopParts(buffer, Pow(2, low), Pow(2, bits));
    SmallMod((buffer % Pow(2, 8 - offset)) / Pow(2, low), Pow(2, bits));
  }

  lemma SmallMod(x: nat, q: nat)
    requires x < q
    ensures x % q == x
  {
    Divides(x, q, 0, x);
  }

  lemma ChunkBits(buffer: Byte, offset: nat, bits: nat)
    requires offset + bits <= 8
    ensures BitsOf(buffer, 8)[offset..offset + bits] == BitsOf(Down(buffer, 8 - offset - bits), bits)
  {
    hide Pow, BitsOf;
    var low := 8 - offset - bits;
    BitsSplit(buffer, offset, 8 - offset);
    BitsSplit(buffer, bits, low);
    assert bits + low == 8 - offset && offset + (8 - offset) == 8;
  }

  lemma ReadMove(start: Bits, done: nat, byte: Bits, offset: nat, bits: nat, rest: Bits)
    requires done <= |start| && |byte| == 8 && offset + bits <= 8 && byte[offset..] + rest == start[done..]
    ensures done + bits <= |start|
    ensures start[..done + bits] == start[..done] + byte[offset..offset + bits]
    ensures byte[offset + bits..] + rest == start[done + bits..]
  {
    assert |start[done..]| >= bits;
    assert start[done..][..bits] == byte[offset..offset + bits];
    assert start[done..][bits..] == byte[offset + bits..] + rest;
  }

  lemma ReadStep(data: nat, before: Bits, buffer: Byte, offset: nat, bits: nat)
    requires data == ValueOf(before) && |before| + bits <= 64 && offset + bits <= 8
    ensures Or((data * Pow(2, bits)) % WORD, Chunk(buffer, offset, bits))
         == ValueOf(before + BitsOf(buffer, 8)[offset..offset + bits])
  {
    hide Pow, BitsOf, ValueOf, Chunk, Or;
    var c := BitsOf(buffer, 8)[offset..offset + bits];
    ChunkValue(buffer, offset, bits);
    ValueOfConcat(before, c);
    ValueOfBound(before);
    NoOverflow(data, |before|, bits);
    OrDisjoint(data * Pow(2, bits), data, Chunk(buffer, offset, bits), bits);
  }

  lemma NoOverflow(data: nat, a: nat, b: nat)
    requires data < Pow(2, a) && a + b <= 64
    ensures (data * Pow(2, b)) % WORD == data * Pow(2, b)
  {
    hide Pow;
    WordIsPow();
    PowAdd(2, a, b);
    PowMonotone(2, a + b, 64);
    Gap(data, Pow(2, a), Pow(2, b));
    Divides(data * Pow(2, b), WORD, 0, data * Pow(2, b));
  }
}
