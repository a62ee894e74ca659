/** The Bech32 and Bech32m checksum over whole lists: it is created correctly, it is the
  * only one that verifies, and it detects every burst of errors within six symbols.
  */
module Bech32Checksum {
  import opened Bech32Field

  const CHECKSUM_SIZE := 6

  datatype Encoding = BECH32 | BECH32M

  function EncodingConstant(encoding: Encoding): (c: Word)
    ensures c < TOP
  {
    if encoding == BECH32 then 1 else 0x2bc830a3
  }

  type Data = seq<Word>

  ghost predicate AllSyms(vs: Data) {
    forall k :: 0 <= k < |vs| ==> IsSym(vs[k])
  }

  /** The register after feeding it a list of symbols. */
  function Run(c: Word, vs: Data): Word {
    if vs == [] then c else Step(Run(c, vs[..|vs| - 1]), vs[|vs| - 1])
  }

  function Zeros(n: nat): (vs: Data)
    ensures |vs| == n && forall k :: 0 <= k < n ==> vs[k] == 0
  {
    seq(n, _ => 0)
  }

  /** Symbol-wise exclusive or. */
  function XorAll(vs: Data, ws: Data): (r: Data)
    requires |vs| == |ws|
    ensures |r| == |vs| && forall k :: 0 <= k < |r| ==> r[k] == Xor(vs[k], ws[k])
  {
    seq(|vs|, k requires 0 <= k < |vs| => Xor(vs[k], ws[k]))
  }

  lemma {:induction false} RunConcat(c: Word, vs: Data, ws: Data)
    ensures Run(c, vs + ws) == Run(Run(c, vs), ws)
  {
    hide Step;
    if ws == [] {
      assert vs + ws == vs;
    } else {
      var n := |ws| - 1;
      assert (vs + ws)[..|vs + ws| - 1] == vs + ws[..n];
      RunConcat(c, vs, ws[..n]);
    }
  }

  lemma {:induction false} RunRange(c: Word, vs: Data)
    requires c < TOP && AllSyms(vs)
    ensures Run(c, vs) < TOP
  {
    hide Step;
    if vs != [] {
      var n := |vs| - 1;
      RunRange(c, vs[..n]);
      StepRange(Run(c, vs[..n]), vs[n]);
    }
  }

  /** The register is linear in its start and its input together. */
  lemma {:induction false} RunLinear(c: Word, d: Word, vs: Data, ws: Data)
    requires |vs| == |ws|
    ensures Run(Xor(c, d), XorAll(vs, ws)) == Xor(Run(c, vs), Run(d, ws))
  {
    hide Step, Xor;
    if vs != [] {
      var n := |vs| - 1;
      assert XorAll(vs, ws)[..n] == XorAll(vs[..n], ws[..n]);
      RunLinear(c, d, vs[..n], ws[..n]);
      StepLinear(Run(c, vs[..n]), Run(d, ws[..n]), vs[n], ws[n]);
    }
  }

  lemma {:induction false} RunZeros(c: Word, n: nat)
    requires c < TOP
    ensures c == 0 <==> Run(c, Zeros(n)) == 0
    ensures Run(c, Zeros(n)) < TOP
  {
    hide Step;
    if n != 0 {
      RunZeros(c, n - 1);
      assert Zeros(n)[..n - 1] == Zeros(n - 1);
      var r := Run(c, Zeros(n - 1));
      StepRange(r, 0);
      if r == 0 { StepZero(); } else { StepNonzero(r); }
    }
  }

  lemma StepZero()
    ensures Step(0, 0) == 0
  {
  }

  // ---------- Six symbols fill the register ----------

  /** The first word that does not fit in `k` coefficients. */
  function Capacity(k: nat): Word
    requires k <= 6
  {
    if k == 0 then 1 else if k == 1 then 0x20 else if k == 2 then 0x400 else if k == 3 then 0x8000
    else if k == 4 then 0x10_0000 else if k == 5 then 0x200_0000 else 0x4000_0000
  }

  lemma StepFills(c: Word, v: Word, k: nat)
    requires k < 6 && c < Capacity(k) && IsSym(v)
    ensures Step(c, v) < Capacity(k + 1)
    ensures Step(c, v) == 0 <==> c == 0 && v == 0
  {
    hide Step;
    FillsBits(c, v);
    StepSmall(c, v);
  }

  lemma FillsBits(c: Word, v: Word)
    requires c < 0x200_0000 && v < 32
    ensures (c << 5) ^ v == 0 <==> c == 0 && v == 0
    ensures c < 1 ==> (c << 5) ^ v < 0x20
    ensures c < 0x20 ==> (c << 5) ^ v < 0x400
    ensures c < 0x400 ==> (c << 5) ^ v < 0x8000
    ensures c < 0x8000 ==> (c << 5) ^ v < 0x10_0000
    ensures c < 0x10_0000 ==> (c << 5) ^ v < 0x200_0000
    ensures (c << 5) ^ v < 0x4000_0000
  {
  }

  /** At most six symbols from the zero register: zero only if they are all zero. */
  lemma {:induction false} RunShort(es: Data)
    requires |es| <= 6 && AllSyms(es)
    ensures Run(0, es) < Capacity(|es|)
    ensures Run(0, es) == 0 <==> forall k :: 0 <= k < |es| ==> es[k] == 0
  {
    hide Step, Capacity;
    if es == [] {
      CapacityZero();
    } else {
      var n := |es| - 1;
      RunShort(es[..n]);
      StepFills(Run(0, es[..n]), es[n], n);
      assert forall k :: 0 <= k < n ==> es[..n][k] == es[k];
    }
  }

  lemma CapacityZero()
    ensures Capacity(0) == 1 && Capacity(6) == TOP
  {
  }

  // ---------- The six symbols of a word ----------

  function SymbolAt(m: Word, i: nat): Word
    requires i < 6
  {
    if i == 0 then (m >> 25) & 31 else if i == 1 then (m >> 20) & 31 else if i == 2 then (m >> 15) & 31
    else if i == 3 then (m >> 10) & 31 else if i == 4 then (m >> 5) & 31 else m & 31
  }

  /** The 5-bit groups of a word, the leading one first. */
  function Symbols(m: Word): (r: Data)
    ensures |r| == CHECKSUM_SIZE && forall i :: 0 <= i < CHECKSUM_SIZE ==> r[i] == SymbolAt(m, i)
  {
    [SymbolAt(m, 0), SymbolAt(m, 1), SymbolAt(m, 2), SymbolAt(m, 3), SymbolAt(m, 4), SymbolAt(m, 5)]
  }

  lemma SymbolsAreSyms(m: Word)
    ensures AllSyms(Symbols(m))
  {
  }

  /** The leading `k` groups of a word. */
  function Leading(m: Word, k: nat): Word
    requires k <= 6
  {
    if k == 0 then 0 else if k == 1 then m >> 25 else if k == 2 then m >> 20 else if k == 3 then m >> 15
    else if k == 4 then m >> 10 else if k == 5 then m >> 5 else m
  }

  lemma StepJoins(c: Word, v: Word, w: Word)
    requires c < 0x200_0000 && (c << 5) ^ v == w
    ensures Step(c, v) == w
  {
    hide Step;
    StepSmall(c, v);
  }

  /** A group joined to the groups before it, for one place each. */
  lemma Joins0(m: Word)
    requires m < TOP
    ensures Leading(m, 0) < 0x200_0000 && (Leading(m, 0) << 5) ^ SymbolAt(m, 0) == Leading(m, 1)
  {
  }

  lemma Joins1(m: Word)
    requires m < TOP
    ensures Leading(m, 1) < 0x200_0000 && (Leading(m, 1) << 5) ^ SymbolAt(m, 1) == Leading(m, 2)
  {
  }

  lemma Joins2(m: Word)
    requires m < TOP
    ensures Leading(m, 2) < 0x200_0000 && (Leading(m, 2) << 5) ^ SymbolAt(m, 2) == Leading(m, 3)
  {
  }

  lemma Joins3(m: Word)
    requires m < TOP
    ensures Leading(m, 3) < 0x200_0000 && (Leading(m, 3) << 5) ^ SymbolAt(m, 3) == Leading(m, 4)
  {
  }

  lemma Joins4(m: Word)
    requires m < TOP
    ensures Leading(m, 4) < 0x200_0000 && (Leading(m, 4) << 5) ^ SymbolAt(m, 4) == Leading(m, 5)
  {
  }

  lemma Joins5(m: Word)
    requires m < TOP
    ensures Leading(m, 5) < 0x200_0000 && (Leading(m, 5) << 5) ^ SymbolAt(m, 5) == Leading(m, 6)
  {
  }

  lemma LeadingJoins(m: Word, k: nat)
    requires k < 6 && m < TOP
    ensures Leading(m, k) < 0x200_0000 && (Leading(m, k) << 5) ^ SymbolAt(m, k) == Leading(m, k + 1)
  {
    hide Leading, SymbolAt;
    if k == 0 { Joins0(m); }
    else if k == 1 { Joins1(m); }
    else if k == 2 { Joins2(m); }
    else if k == 3 { Joins3(m); }
    else if k == 4 { Joins4(m); }
    else { Joins5(m); }
  }

  /** Feeding a group to the groups before it shifts it in. */
  lemma LeadingStep(m: Word, k: nat)
    requires k < 6 && m < TOP
    ensures Step(Leading(m, k), SymbolAt(m, k)) == Leading(m, k + 1)
  {
    hide Step, Leading, SymbolAt;
    LeadingJoins(m, k);
    StepJoins(Leading(m, k), SymbolAt(m, k), Leading(m, k + 1));
  }

  lemma {:induction false} RunSymbols(m: Word, k: nat)
    requires k <= 6 && m < TOP
    ensures Run(0, Symbols(m)[..k]) == Leading(m, k)
  {
    hide Step, Leading, SymbolAt, Symbols;
    if k == 0 {
      LeadingEnds(m);
    } else {
      RunSymbols(m, k - 1);
      assert Symbols(m)[..k][..k - 1] == Symbols(m)[..k - 1];
      LeadingStep(m, k - 1);
    }
  }

  lemma LeadingEnds(m: Word)
    ensures Leading(m, 0) == 0 && Leading(m, 6) == m
  {
  }

  lemma RunAllSymbols(m: Word)
    requires m < TOP
    ensures Run(0, Symbols(m)) == m
  {
    hide Run, Leading, Symbols;
    RunSymbols(m, 6);
    LeadingEnds(m);
    assert Symbols(m)[..6] == Symbols(m);
  }

  /** From any register, two six-symbol inputs give the same result only if they are equal. */
  lemma RunInjective(c: Word, r: Data, r': Data)
    requires |r| == |r'| == 6 && AllSyms(r) && AllSyms(r') && Run(c, r) == Run(c, r')
    ensures r == r'
  {
    hide Run, Xor, IsSym;
    RunLinear(c, c, r, r');
    XorZero(c);
    XorZero(Run(c, r));
    var d := XorAll(r, r');
    forall k | 0 <= k < 6 ensures IsSym(d[k]) { XorSym(r[k], r'[k]); }
    RunShort(d);
    forall k | 0 <= k < 6 ensures r[k] == r'[k] {
      assert d[k] == 0;
      XorSame(r[k], r'[k]);
    }
  }

  // ---------- Creating and verifying ----------

  /** What makes the register end at `target` from `c`. */
  function ChecksumFrom(c: Word, target: Word): Data {
    Symbols(Xor(Run(c, Zeros(CHECKSUM_SIZE)), target))
  }

  /** The checksum verifies, and it is the only one that does. */
  lemma ChecksumUnique(c: Word, target: Word, r: Data)
    requires c < TOP && target < TOP && |r| == CHECKSUM_SIZE && AllSyms(r)
    ensures Run(c, r) == target <==> r == ChecksumFrom(c, target)
  {
    hide Run, Xor, Symbols, IsSym;
    var z := Run(c, Zeros(CHECKSUM_SIZE));
    var m := Xor(z, target);
    var sum := Symbols(m);
    RunZeros(c, CHECKSUM_SIZE);
    XorTop(z, target);
    RunAllSymbols(m);
    SymbolsAreSyms(m);
    RunLinear(c, 0, Zeros(CHECKSUM_SIZE), sum);
    XorZero(c);
    forall k | 0 <= k < 6 ensures Xor(0, sum[k]) == sum[k] { XorComm(0, sum[k]); XorZero(sum[k]); }
    assert XorAll(Zeros(CHECKSUM_SIZE), sum) == sum;
    XorComm(z, target);
    XorComm(z, m);
    XorUndo(target, z);
    assert Run(c, sum) == target;
    if Run(c, r) == target {
      RunInjective(c, r, sum);
    }
  }

  // ---------- Bursts ----------

  /** The lists agree outside the six positions from `p` on. */
  ghost predicate DifferWithin(vs: Data, ws: Data, p: nat)
    requires |vs| == |ws|
  {
    forall k :: 0 <= k < |vs| && (k < p || k >= p + 6) ==> vs[k] == ws[k]
  }

  lemma RunDifference(c: Word, vs: Data, ws: Data)
    requires |vs| == |ws|
    ensures Run(c, vs) == Run(c, ws) <==> Run(0, XorAll(vs, ws)) == 0
  {
    hide Run, Xor;
    RunLinear(c, c, vs, ws);
    XorZero(c);
    XorSame(Run(c, vs), Run(c, ws));
  }

  /** A non-zero stretch of at most six symbols between zeros leaves the register non-zero. */
  lemma BurstNonzero(a: nat, es: Data, b: nat)
    requires |es| <= 6 && AllSyms(es) && exists k :: 0 <= k < |es| && es[k] != 0
    ensures Run(0, Zeros(a) + es + Zeros(b)) != 0
  {
    hide Run, IsSym, Capacity;
    RunZeros(0, a);
    RunConcat(0, Zeros(a), es);
    RunConcat(0, Zeros(a) + es, Zeros(b));
    RunShort(es);
    CapacityTop(|es|);
    RunZeros(Run(0, es), b);
  }

  lemma CapacityTop(k: nat)
    requires k <= 6
    ensures Capacity(k) <= TOP
  {
  }

  lemma DifferenceSyms(vs: Data, ws: Data)
    requires |vs| == |ws| && AllSyms(vs) && AllSyms(ws)
    ensures AllSyms(XorAll(vs, ws))
    ensures forall k :: 0 <= k < |vs| ==> (XorAll(vs, ws)[k] == 0 <==> vs[k] == ws[k])
  {
    hide Xor, IsSym;
    forall k | 0 <= k < |vs| ensures IsSym(XorAll(vs, ws)[k]) && (XorAll(vs, ws)[k] == 0 <==> vs[k] == ws[k]) {
      XorSym(vs[k], ws[k]);
      XorSame(vs[k], ws[k]);
    }
  }

  /** Two different lists that differ only within six consecutive positions never leave the
    * same register, whatever their length and whatever came before.
    */
  lemma BurstDetected(c: Word, vs: Data, ws: Data, p: nat)
    requires |vs| == |ws| && AllSyms(vs) && AllSyms(ws) && vs != ws && DifferWithin(vs, ws, p)
    ensures Run(c, vs) != Run(c, ws)
  {
    hide Run, Xor, IsSym, XorAll, AllSyms;
    RunDifference(c, vs, ws);
    DifferenceSyms(vs, ws);
    var k := SomeDifference(vs, ws);
    WindowNonzero(XorAll(vs, ws), p, k);
  }

  lemma WindowNonzero(d: Data, p: nat, k: nat)
    requires AllSyms(d) && k < |d| && d[k] != 0 && forall j :: 0 <= j < |d| && (j < p || j >= p + 6) ==> d[j] == 0
    ensures Run(0, d) != 0
  {
    hide Run, IsSym;
    var lo := if p < |d| then p else |d|;
    var hi := if p + 6 < |d| then p + 6 else |d|;
    SplitZeros(d, lo, hi);
    var es := d[lo..hi];
    assert lo <= k < hi;
    assert es[k - lo] == d[k];
    forall j | 0 <= j < |es| ensures IsSym(es[j]) { assert es[j] == d[lo + j]; }
    BurstNonzero(lo, es, |d| - hi);
  }

  lemma SomeDifference(vs: Data, ws: Data) returns (k: nat)
    requires |vs| == |ws| && vs != ws
    ensures k < |vs| && vs[k] != ws[k]
  {
    k :| k < |vs| && vs[k] != ws[k];
  }

  lemma SplitZeros(d: Data, lo: nat, hi: nat)
    requires lo <= hi <= |d| && forall k :: 0 <= k < |d| && (k < lo || k >= hi) ==> d[k] == 0
    ensures d == Zeros(lo) + d[lo..hi] + Zeros(|d| - hi)
  {
  }
}
