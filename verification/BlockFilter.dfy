/** Golomb-coded set filters: building, rebuilding from an encoding, and matching by a single
  * merge pass over the encoded values.
  */
module BlockFilter {
  import opened Powers
  import opened BitStream
  import opened GolombRice

  type Element = seq<Byte>

  const UINT32: nat := 0x1_0000_0000

  /** The keyed hash, the coding parameter and the inverse false positive rate. */
  datatype Params = Params(hash: Element -> nat, p: nat, m: nat)

  datatype Filter = Filter(params: Params, n: nat, f: nat, encoded: seq<Byte>)

  ghost predicate ParamsOk(params: Params) {
    params.p < 64 && params.m < UINT32 && forall e :: params.hash(e) < WORD
  }

  /** A hash mapped onto the range below `f`. */
  function HashToRange(params: Params, f: nat, e: Element): nat {
    FastRange(params.hash(e), f)
  }

  function FastRange(h: nat, f: nat): nat {
    (h * f) / WORD
  }

  const HALF: nat := 0x1_0000_0000

  /** The same from 32-bit halves, for machines without 128-bit words; no 64-bit intermediate
    * overflows.
    */
  method FastRange64(x: nat, n: nat) returns (r: nat)
    requires x < WORD && n < WORD
    ensures r == FastRange(x, n)
  {
    hide FastRange;
    var xHi, xLo, nHi, nLo := x / HALF, x % HALF, n / HALF, n % HALF;
    var ac := HalfProduct(xHi, nHi);
    var ad := HalfProduct(xHi, nLo);
    var bc := HalfProduct(xLo, nHi);
    var bd := HalfProduct(xLo, nLo);
    var mid34 := bd / HALF + bc % HALF + ad % HALF;
    r := ac + bc / HALF + ad / HALF + mid34 / HALF;
    assert mid34 < WORD && r < WORD;
    FromHalves(x, n, ac, ad, bc, bd, mid34, r);
  }

  method HalfProduct(a: nat, b: nat) returns (r: nat)
    requires a < HALF && b < HALF
    ensures r == a * b <= 0xffff_fffe_0000_0001
  {
    MulMonotone(a, b, HALF - 1, HALF - 1);
    r := a * b;
  }

  lemma FromHalves(x: nat, n: nat, ac: nat, ad: nat, bc: nat, bd: nat, mid: nat, r: nat)
    requires ac == (x / HALF) * (n / HALF) && ad == (x / HALF) * (n % HALF)
    requires bc == (x % HALF) * (n / HALF) && bd == (x % HALF) * (n % HALF)
    requires mid == bd / HALF + bc % HALF + ad % HALF && r == ac + bc / HALF + ad / HALF + mid / HALF
    ensures r == FastRange(x, n)
  {
    Halves(x, n);
    Upper(x * n, ac, ad, bc, bd, mid, r);
  }

  lemma Halves(x: nat, n: nat)
    ensures x * n == (x / HALF) * (n / HALF) * WORD
      + ((x / HALF) * (n % HALF) + (x % HALF) * (n / HALF)) * HALF + (x % HALF) * (n % HALF)
  {
    Parts(x, HALF);
    Parts(n, HALF);
    ProductOfSums(x / HALF, x % HALF, n / HALF, n % HALF);
  }

  lemma ProductOfSums(a: nat, b: nat, c: nat, d: nat)
    ensures (a * HALF + b) * (c * HALF + d) == a * c * WORD + (a * d + b * c) * HALF + b * d
  {
    Distribute(a * HALF + b, c * HALF, d);
    Distribute(c * HALF, a * HALF, b);
    Distribute(d, a * HALF, b);
    assert c * HALF * (a * HALF) == a * c * WORD;
    assert c * HALF * b == b * c * HALF;
    assert d * (a * HALF) == a * d * HALF;
  }

  lemma Upper(product: nat, ac: nat, ad: nat, bc: nat, bd: nat, mid: nat, r: nat)
    requires product == ac * WORD + (ad + bc) * HALF + bd
    requires mid == bd / HALF + bc % HALF + ad % HALF && r == ac + bc / HALF + ad / HALF + mid / HALF
    ensures product / WORD == r
  {
    Parts(ad, HALF);
    Parts(bc, HALF);
    Parts(bd, HALF);
    Parts(mid, HALF);
    Divides(product, WORD, r, (mid % HALF) * HALF + bd % HALF);
  }

  /** The range is divided evenly: order is kept, and every value of the range is met. */
  lemma FastRangeEven(h: nat, h': nat, f: nat, v: nat) returns (x: nat)
    requires h <= h' && v < f <= WORD
    ensures FastRange(h, f) <= FastRange(h', f)
    ensures x < WORD && FastRange(x, f) == v
  {
    MulMonotone(h, f, h', f);
    Parts(h * f, WORD);
    Parts(h' * f, WORD);
    QuotientOrder(h * f, h' * f);
    x := (v * WORD + f - 1) / f;
    Parts(v * WORD + f - 1, f);
    assert v * WORD <= x * f < (v + 1) * WORD;
    assert (v + 1) * WORD <= f * WORD by { MulMonotone(v + 1, WORD, f, WORD); }
    if x >= WORD {
      MulMonotone(WORD, f, x, f);
      assert false;
    }
    Parts(x * f, WORD);
    QuotientIs(x * f, v);
  }

  lemma QuotientOrder(a: nat, b: nat)
    requires a <= b
    ensures a / WORD <= b / WORD
  {
  }

  lemma QuotientIs(a: nat, v: nat)
    requires v * WORD <= a < (v + 1) * WORD
    ensures a / WORD == v
  {
  }

  // ---------- Sorting ----------

  predicate Sorted(s: seq<nat>) {
    forall i, j :: 0 <= i < j < |s| ==> s[i] <= s[j]
  }

  function Insert(s: seq<nat>, x: nat): seq<nat> {
    if s == [] || s[|s| - 1] <= x then s + [x] else Insert(s[..|s| - 1], x) + [s[|s| - 1]]
  }

  function Sort(s: seq<nat>): seq<nat> {
    if s == [] then [] else Insert(Sort(s[..|s| - 1]), s[|s| - 1])
  }

  lemma {:induction false} InsertSorted(s: seq<nat>, x: nat)
    requires Sorted(s)
    ensures Sorted(Insert(s, x)) && |Insert(s, x)| == |s| + 1
    ensures forall y :: y in Insert(s, x) <==> y in s || y == x
  {
    if s != [] && s[|s| - 1] > x {
      var n := |s| - 1;
      InsertSorted(s[..n], x);
      assert forall y :: y in s <==> y in s[..n] || y == s[n];
      var t := Insert(s[..n], x);
      forall i | 0 <= i < |t| ensures t[i] <= s[n] {
        assert t[i] in t;
      }
    }
  }

  lemma {:induction false} SortSorted(s: seq<nat>)
    ensures Sorted(Sort(s)) && |Sort(s)| == |s|
    ensures forall y :: y in Sort(s) <==> y in s
  {
    if s != [] {
      var n := |s| - 1;
      SortSorted(s[..n]);
      InsertSorted(Sort(s[..n]), s[n]);
      assert forall y :: y in s <==> y in s[..n] || y == s[n];
    }
  }

  // ---------- Hashed sets ----------

  function Hashes(params: Params, f: nat, es: seq<Element>): (r: seq<nat>)
    ensures |r| == |es| && forall i :: 0 <= i < |r| ==> r[i] == HashToRange(params, f, es[i])
  {
    seq(|es|, i requires 0 <= i < |es| => HashToRange(params, f, es[i]))
  }

  method BuildHashedSet(params: Params, f: nat, es: seq<Element>) returns (r: seq<nat>)
    ensures r == Sort(Hashes(params, f, es))
  {
    r := [];
    for i := 0 to |es|
      invariant r == Hashes(params, f, es)[..i]
    {
      r := r + [HashToRange(params, f, es[i])];
    }
    assert r == Hashes(params, f, es);
    r := Sort(r);
  }

  /** Some element has the hash of `e`. */
  ghost predicate Hit(params: Params, f: nat, es: seq<Element>, e: Element) {
    exists i :: 0 <= i < |es| && HashToRange(params, f, es[i]) == HashToRange(params, f, e)
  }

  /** A member always hits. */
  lemma MemberHits(params: Params, f: nat, es: seq<Element>, e: Element)
    requires e in es
    ensures Hit(params, f, es, e)
  {
    var i :| 0 <= i < |es| && es[i] == e;
  }

  lemma HashBound(params: Params, f: nat, e: Element)
    requires params.hash(e) < WORD
    ensures HashToRange(params, f, e) <= f
    ensures f > 0 ==> HashToRange(params, f, e) < f
  {
    var h := params.hash(e);
    MulMonotone(h, f, WORD, f);
    Parts(h * f, WORD);
    if f > 0 { Gap(h, WORD, f); }
  }

  // ---------- Encodings ----------

  ghost function Deltas(vs: seq<nat>): (ds: seq<nat>)
    requires Sorted(vs)
    ensures |ds| == |vs|
  {
    seq(|vs|, i requires 0 <= i < |vs| => if i == 0 then vs[0] else vs[i] - vs[i - 1])
  }

  /** The sorted values are coded by their differences, after their number, with less than a
    * byte to spare.
    */
  ghost predicate Represents(flt: Filter, vs: seq<nat>) {
    && Sorted(vs) && |vs| == flt.n && (forall i :: 0 <= i < |vs| ==> vs[i] < WORD)
    && exists body: seq<Byte> ::
        && flt.encoded == WriteCompactSize(flt.n) + body
        && CodeAll(flt.params.p, Deltas(vs)) <= Flat(body)
        && |Flat(body)| < |CodeAll(flt.params.p, Deltas(vs))| + 8
  }

  lemma DeltasBound(vs: seq<nat>)
    requires Sorted(vs) && forall i :: 0 <= i < |vs| ==> vs[i] < WORD
    ensures forall i :: 0 <= i < |vs| ==> Deltas(vs)[i] < WORD
  {
  }

  /** A filter built from elements, in any order. */
  ghost predicate BuiltFrom(flt: Filter, es: seq<Element>) {
    && flt.n == |es| < UINT32
    && flt.f == flt.n * flt.params.m
    && ParamsOk(flt.params)
    && Represents(flt, Sort(Hashes(flt.params, flt.f, es)))
  }

  lemma HashesSmall(params: Params, n: nat, es: seq<Element>)
    requires ParamsOk(params) && n < UINT32
    ensures forall i :: 0 <= i < |es| ==> Hashes(params, n * params.m, es)[i] < WORD
  {
    var f := n * params.m;
    MulMonotone(n, params.m, UINT32 - 1, UINT32 - 1);
    forall i | 0 <= i < |es| ensures Hashes(params, f, es)[i] < WORD { HashBound(params, f, es[i]); }
  }

  method Build(params: Params, es: seq<Element>) returns (r: Option<Filter>)
    requires ParamsOk(params)
    ensures r.Some? <==> |es| < UINT32
    ensures r.Some? ==> r.value.params == params && BuiltFrom(r.value, es)
  {
    hide Pow, BitsOf, Code, CodeAll, WriteCompactSize, HashToRange, Sort, Hashes, Sorted;
    var n := |es| % UINT32;
    if n != |es| { return None; }
    var f := n * params.m;
    var header := WriteCompactSize(n);
    ghost var vs := Sort(Hashes(params, f, es));
    SortSorted(Hashes(params, f, es));
    HashesSmall(params, n, es);
    InSeq(vs, Hashes(params, f, es));
    var body := [];
    if es == [] {
      NoValues(vs, params.p);
    } else {
      var values := BuildHashedSet(params, f, es);
      body := WriteValues(params.p, values);
    }
    var flt := Filter(params, n, f, header + body);
    RepresentsBy(flt, vs, body);
    return Some(flt);
  }

  lemma InSeq(vs: seq<nat>, hs: seq<nat>)
    requires forall y :: y in vs <==> y in hs
    requires forall i :: 0 <= i < |hs| ==> hs[i] < WORD
    ensures forall i :: 0 <= i < |vs| ==> vs[i] < WORD
  {
    forall i | 0 <= i < |vs| ensures vs[i] < WORD { assert vs[i] in hs; }
  }

  lemma NoValues(vs: seq<nat>, p: nat)
    requires vs == []
    ensures Sorted(vs) && CodeAll(p, Deltas(vs)) == [] && Flat([]) == []
  {
  }

  lemma RepresentsBy(flt: Filter, vs: seq<nat>, body: seq<Byte>)
    requires Sorted(vs) && |vs| == flt.n && forall i :: 0 <= i < |vs| ==> vs[i] < WORD
    requires flt.encoded == WriteCompactSize(flt.n) + body
    requires CodeAll(flt.params.p, Deltas(vs)) <= Flat(body) && |Flat(body)| < |CodeAll(flt.params.p, Deltas(vs))| + 8
    ensures Represents(flt, vs)
  {
    hide CodeAll, WriteCompactSize, Sorted, Flat;
  }

  /** The codes of the differences, packed into bytes. */
  method WriteValues(p: nat, vs: seq<nat>) returns (body: seq<Byte>)
    requires p < 64 && Sorted(vs) && forall i :: 0 <= i < |vs| ==> vs[i] < WORD
    ensures CodeAll(p, Deltas(vs)) <= Flat(body) && |Flat(body)| < |CodeAll(p, Deltas(vs))| + 8
  {
    hide Pow, BitsOf, Code, CodeAll, Flat;
    var w := new BitWriter([]);
    FlatNone();
    ghost var ds := Deltas(vs);
    NoCodes(p, ds);
    var last := 0;
    for i := 0 to |vs|
      invariant w.Valid() && w.Written() == CodeAll(p, ds[..i])
      invariant last == if i == 0 then 0 else vs[i - 1]
    {
      var delta := vs[i] - last;
      assert delta == ds[i];
      Encode(w, p, delta);
      CodeAllAppend(p, ds[..i], ds[i]);
      assert ds[..i + 1] == ds[..i] + [ds[i]];
      last := vs[i];
    }
    assert ds[..|vs|] == ds;
    w.Flush();
    body := w.out;
  }

  lemma NoCodes(p: nat, ds: seq<nat>)
    ensures CodeAll(p, ds[..0]) == []
  {
  }

  // ---------- Rebuilding ----------

  /** An encoding that is accepted: a number of codes within the limit, all of them complete
    * unless the check is skipped, and less than a byte after them.
    */
  predicate Fits(p: nat, bits: nat, length: Option<nat>) {
    length.Some? && bits - length.value < 8
  }

  ghost predicate Accepts(p: nat, encoded: seq<Byte>, skipCheck: bool) {
    var header := ReadCompactSize(encoded);
    header.Some? &&
    (skipCheck || Fits(p, |Flat(header.value.1)|, ManyLength(p, Flat(header.value.1), header.value.0)))
  }

  /** The filter an encoding gives. */
  function Loaded(params: Params, encoded: seq<Byte>): Filter {
    var header := ReadCompactSize(encoded);
    var n := if header.None? then 0 else header.value.0;
    Filter(params, n, n * params.m, encoded)
  }

  lemma {:induction false} ManyNext(p: nat, bits: Bits, n: nat)
    ensures ManyLength(p, bits, n).Some? ==> ManyLength(p, bits, n).value <= |bits|
    ensures ManyLength(p, bits, n + 1) ==
      var c := ManyLength(p, bits, n);
      if c.None? || c.value > |bits| then None
      else
        var last := CodeLength(p, bits[c.value..]);
        if last.None? then None else Some(c.value + last.value)
    decreases n
  {
    hide CodeLength;
    CodeFits(p, bits);
    var first := CodeLength(p, bits);
    if n == 0 {
      assert bits[0..] == bits;
      if first.Some? { assert ManyLength(p, bits[first.value..], 0) == Some(0); }
    } else if first.Some? {
      var rest := bits[first.value..];
      ManyNext(p, rest, n - 1);
      if ManyLength(p, rest, n - 1).Some? {
        assert rest[ManyLength(p, rest, n - 1).value..] == bits[first.value + ManyLength(p, rest, n - 1).value..];
      }
    }
  }

  lemma CodeFits(p: nat, bits: Bits)
    ensures CodeLength(p, bits).Some? ==> CodeLength(p, bits).value <= |bits|
  {
  }

  lemma {:induction false} ManyStops(p: nat, bits: Bits, i: nat, n: nat)
    requires i <= n && ManyLength(p, bits, i).None?
    ensures ManyLength(p, bits, n).None?
    decreases n
  {
    hide ManyLength, CodeLength;
    if i < n {
      ManyStops(p, bits, i, n - 1);
      ManyNext(p, bits, n - 1);
    }
  }

  method Rebuild(params: Params, encoded: seq<Byte>, skipCheck: bool) returns (r: Option<Filter>)
    requires ParamsOk(params)
    ensures r.Some? <==> Accepts(params.p, encoded, skipCheck)
    ensures r.Some? ==> r.value == Loaded(params, encoded)
  {
    hide CodeLength, ManyLength, ReadCompactSize, Flat, BitsOf;
    var header := ReadCompactSize(encoded);
    if header.None? { return None; }
    var n := header.value.0 % UINT32;
    if n != header.value.0 { return None; }
    var flt := Filter(params, n, n * params.m, encoded);
    if skipCheck { return Some(flt); }
    var reader := new BitReader(header.value.1);
    ghost var bits := reader.Left();
    ghost var used := 0;
    ManyNone(params.p, bits);
    for i := 0 to n
      invariant reader.Valid() && ManyLength(params.p, bits, i) == Some(used)
      invariant 0 <= used <= |bits| && reader.Left() == bits[used..]
    {
      ManyNext(params.p, bits, i);
      CodeFits(params.p, bits[used..]);
      var delta := Decode(reader, params.p);
      if delta.None? {
        ManyStops(params.p, bits, i + 1, n);
        return None;
      }
      used := used + CodeLength(params.p, bits[used..]).value;
    }
    assert |reader.Left()| == 8 - reader.offset + 8 * |reader.rest|;
    if reader.rest != [] { return None; }
    return Some(flt);
  }

  lemma ManyNone(p: nat, bits: Bits)
    ensures ManyLength(p, bits, 0) == Some(0)
  {
  }

  /** A filter rebuilt from the encoding of a built one is the same filter, checked or not;
    * exactly the filters within the size limit can be rebuilt.
    */
  lemma RebuiltSame(flt: Filter, es: seq<Element>, skipCheck: bool)
    requires BuiltFrom(flt, es)
    ensures Accepts(flt.params.p, flt.encoded, skipCheck) <==> flt.n <= MAX_SIZE
    ensures flt.n <= MAX_SIZE ==> Loaded(flt.params, flt.encoded) == flt
  {
    hide CodeAll, ManyLength, WriteCompactSize, ReadCompactSize, Flat, Sort, Hashes, Sorted;
    var vs := Sort(Hashes(flt.params, flt.f, es));
    var p, codes := flt.params.p, CodeAll(flt.params.p, Deltas(vs));
    var body: seq<Byte> :| flt.encoded == WriteCompactSize(flt.n) + body && codes <= Flat(body) && |Flat(body)| < |codes| + 8;
    CompactSizeBack(flt.n, body);
    DeltasBound(vs);
    ManyReads(p, Deltas(vs), Flat(body)[|codes|..]);
    assert codes + Flat(body)[|codes|..] == Flat(body);
  }

  // ---------- Matching ----------

  ghost predicate Common(vs: seq<nat>, qs: seq<nat>) {
    exists v :: v in vs && v in qs
  }

  /** The codes from the `i`th on come next. */
  ghost predicate Ahead(p: nat, vs: seq<nat>, i: nat, bits: Bits)
    requires Sorted(vs) && i <= |vs|
  {
    CodeAll(p, Deltas(vs)[i..]) <= bits
  }

  lemma AheadNext(p: nat, vs: seq<nat>, i: nat, bits: Bits)
    requires Sorted(vs) && i < |vs| && (forall k :: 0 <= k < |vs| ==> vs[k] < WORD) && Ahead(p, vs, i, bits)
    ensures CodeLength(p, bits).Some? && CodeLength(p, bits).value <= |bits| && CodeValue(p, bits) == Deltas(vs)[i]
    ensures Ahead(p, vs, i + 1, bits[CodeLength(p, bits).value..])
  {
    hide Code, CodeLength, CodeValue, Sorted;
    var ds := Deltas(vs);
    DeltasBound(vs);
    var c := Code(p, ds[i]);
    assert ds[i..][1..] == ds[i + 1..];
    var tail := bits[|c|..];
    assert bits == c + tail;
    CodeReads(p, ds[i], tail);
    CodeFits(p, bits);
  }

  lemma AheadStart(flt: Filter, vs: seq<nat>)
    requires Represents(flt, vs) && flt.n < WORD
    ensures ReadCompactSize(flt.encoded).Some? <==> flt.n <= MAX_SIZE
    ensures flt.n <= MAX_SIZE ==> ReadCompactSize(flt.encoded).value.0 == flt.n
    ensures flt.n <= MAX_SIZE ==> Ahead(flt.params.p, vs, 0, Flat(ReadCompactSize(flt.encoded).value.1))
  {
    hide CodeAll, WriteCompactSize, ReadCompactSize, Flat, Sorted;
    var codes := CodeAll(flt.params.p, Deltas(vs));
    var body: seq<Byte> :| flt.encoded == WriteCompactSize(flt.n) + body && codes <= Flat(body) && |Flat(body)| < |codes| + 8;
    CompactSizeBack(flt.n, body);
    assert Deltas(vs)[0..] == Deltas(vs);
  }

  /** Move on through the queries below a value. */
  method Skip(qs: seq<nat>, from: nat, value: nat) returns (index: nat)
    requires from <= |qs|
    ensures from <= index <= |qs| && (forall k :: from <= k < index ==> qs[k] < value)
    ensures index < |qs| ==> qs[index] >= value
  {
    index := from;
    while index < |qs| && qs[index] < value
      invariant from <= index <= |qs| && forall k :: from <= k < index ==> qs[k] < value
    {
      index := index + 1;
    }
  }

  /** What the merge knows after `i` values: no match so far, and the queries passed are below. */
  ghost predicate Merged(vs: seq<nat>, qs: seq<nat>, i: nat, index: nat)
    requires i <= |vs| && index <= |qs|
  {
    && (forall a, b :: 0 <= a < i && 0 <= b < |qs| ==> vs[a] != qs[b])
    && (forall k :: 0 <= k < index ==> i > 0 && qs[k] < vs[i - 1])
  }

  lemma MergeStep(vs: seq<nat>, qs: seq<nat>, i: nat, from: nat, index: nat)
    requires Sorted(vs) && Sorted(qs) && i < |vs| && from <= index <= |qs| && Merged(vs, qs, i, from)
    requires forall k :: from <= k < index ==> qs[k] < vs[i]
    requires index < |qs| ==> qs[index] >= vs[i]
    ensures index == |qs| ==> !Common(vs, qs)
    ensures index < |qs| && qs[index] == vs[i] ==> Common(vs, qs)
    ensures index < |qs| && qs[index] > vs[i] ==> Merged(vs, qs, i + 1, index)
  {
    forall k | 0 <= k < index ensures qs[k] < vs[i] {}
    if index == |qs| {
      forall a, b | 0 <= a < |vs| && 0 <= b < |qs| ensures vs[a] != qs[b] {
        if a > i { assert vs[i] <= vs[a]; }
      }
    } else if qs[index] == vs[i] {
      assert vs[i] in vs && qs[index] in qs;
    } else {
      forall b | 0 <= b < |qs| ensures vs[i] != qs[b] {
        if b > index { assert qs[index] <= qs[b]; }
      }
    }
  }

  lemma MergeEnd(vs: seq<nat>, qs: seq<nat>, index: nat)
    requires index <= |qs| && Merged(vs, qs, |vs|, index)
    ensures !Common(vs, qs)
  {
    assert forall a, b :: 0 <= a < |vs| && 0 <= b < |qs| ==> vs[a] != qs[b];
  }

  /** One pass over the encoded values and the sorted queries together. For a filter that
    * represents some values it tells whether a query is among them; a filter over the size
    * limit cannot be read.
    */
  method MatchInternal(flt: Filter, qs: seq<nat>, ghost vs: seq<nat>) returns (r: Option<bool>)
    requires flt.params.p < 64 && flt.n < UINT32 && Represents(flt, vs) && Sorted(qs)
    ensures r == if flt.n <= MAX_SIZE then Some(Common(vs, qs)) else None
  {
    hide Represents, ReadCompactSize, Ahead, CodeLength, CodeValue, Flat, BitsOf, Merged, Common, Sorted, Deltas;
    AheadStart(flt, vs);
    Represented(flt, vs);
    var header := ReadCompactSize(flt.encoded);
    if header.None? { return None; }
    assert header.value.0 == flt.n;
    var reader := new BitReader(header.value.1);
    var value, index := 0, 0;
    NothingMerged(vs, qs);
    for i := 0 to flt.n
      invariant reader.Valid() && Ahead(flt.params.p, vs, i, reader.Left())
      invariant value == (if i == 0 then 0 else vs[i - 1])
      invariant index <= |qs| && Merged(vs, qs, i, index)
    {
      AheadNext(flt.params.p, vs, i, reader.Left());
      DeltaSum(vs, i);
      var delta := Decode(reader, flt.params.p);
      if delta.None? { return None; }
      value := (value + delta.value) % WORD;
      var next := Skip(qs, index, value);
      MergeStep(vs, qs, i, index, next);
      index := next;
      if index == |qs| { return Some(false); }
      if qs[index] == value { return Some(true); }
    }
    MergeEnd(vs, qs, index);
    return Some(false);
  }

  lemma Represented(flt: Filter, vs: seq<nat>)
    requires Represents(flt, vs)
    ensures Sorted(vs) && |vs| == flt.n && forall i :: 0 <= i < |vs| ==> vs[i] < WORD
  {
  }

  lemma NothingMerged(vs: seq<nat>, qs: seq<nat>)
    ensures Merged(vs, qs, 0, 0)
  {
  }

  lemma DeltaSum(vs: seq<nat>, i: nat)
    requires Sorted(vs) && i < |vs| && vs[i] < WORD
    ensures ((if i == 0 then 0 else vs[i - 1]) + Deltas(vs)[i]) % WORD == vs[i]
  {
    assert i > 0 ==> vs[i - 1] <= vs[i];
  }

  lemma CommonHashes(params: Params, f: nat, es: seq<Element>, queries: seq<Element>)
    ensures Common(Sort(Hashes(params, f, es)), Sort(Hashes(params, f, queries)))
       <==> exists k :: 0 <= k < |queries| && Hit(params, f, es, queries[k])
  {
    hide HashToRange, Sort, Sorted;
    var hs, ks := Hashes(params, f, es), Hashes(params, f, queries);
    SortSorted(hs);
    SortSorted(ks);
    if Common(Sort(hs), Sort(ks)) {
      var v :| v in Sort(hs) && v in Sort(ks);
      var i :| 0 <= i < |hs| && hs[i] == v;
      var k :| 0 <= k < |ks| && ks[k] == v;
      assert Hit(params, f, es, queries[k]);
    }
    if exists k :: 0 <= k < |queries| && Hit(params, f, es, queries[k]) {
      var k :| 0 <= k < |queries| && Hit(params, f, es, queries[k]);
      var i :| 0 <= i < |es| && HashToRange(params, f, es[i]) == HashToRange(params, f, queries[k]);
      assert hs[i] in Sort(hs) && ks[k] in Sort(ks);
    }
  }

  lemma SingleSorted(params: Params, f: nat, e: Element)
    ensures Sort(Hashes(params, f, [e])) == [HashToRange(params, f, e)]
  {
    var h := HashToRange(params, f, e);
    assert Hashes(params, f, [e]) == [h];
    assert [h][..0] == [];
    assert Sort([]) == [];
    assert Insert([], h) == [] + [h] == [h];
  }

  /** Whether an element may be in the set: exactly when some member has its hash. */
  method Match(flt: Filter, e: Element, ghost es: seq<Element>) returns (r: Option<bool>)
    requires BuiltFrom(flt, es)
    ensures r == if flt.n <= MAX_SIZE then Some(Hit(flt.params, flt.f, es, e)) else None
  {
    hide HashToRange, Hashes, Sort, Represents, Hit, Sorted, Common;
    SingleSorted(flt.params, flt.f, e);
    SortSorted(Hashes(flt.params, flt.f, [e]));
    CommonHashes(flt.params, flt.f, es, [e]);
    assert Hit(flt.params, flt.f, es, e) <==> Hit(flt.params, flt.f, es, [e][0]);
    r := MatchInternal(flt, [HashToRange(flt.params, flt.f, e)], Sort(Hashes(flt.params, flt.f, es)));
  }

  /** Whether any element may be in the set: exactly when one of them matches by itself. */
  method MatchAny(flt: Filter, queries: seq<Element>, ghost es: seq<Element>) returns (r: Option<bool>)
    requires BuiltFrom(flt, es)
    ensures r == if flt.n <= MAX_SIZE then Some(exists k :: 0 <= k < |queries| && Hit(flt.params, flt.f, es, queries[k])) else None
  {
    hide HashToRange, Hashes, Sort, Represents, Hit, Sorted, Common;
    var qs := BuildHashedSet(flt.params, flt.f, queries);
    SortSorted(Hashes(flt.params, flt.f, queries));
    CommonHashes(flt.params, flt.f, es, queries);
    r := MatchInternal(flt, qs, Sort(Hashes(flt.params, flt.f, es)));
  }
}
