/** Encoding and decoding of whole Bech32 strings, and that they undo each other. */
module Bech32Codec {
  import opened Bech32Field
  import opened Bech32Checksum
  import opened Bech32

  datatype DecodeResult = Invalid | Decoded(encoding: Encoding, hrp: Bytes, data: Data)

  function Chars(vs: Data): (r: Bytes)
    ensures |r| == |vs| && forall k :: 0 <= k < |r| ==> r[k] == Charset(vs[k])
  {
    seq(|vs|, k requires 0 <= k < |vs| => Charset(vs[k]))
  }

  function Lowered(s: Bytes): (r: Bytes)
    ensures |r| == |s| && forall k :: 0 <= k < |r| ==> r[k] == LowerCase(s[k])
  {
    seq(|s|, k requires 0 <= k < |s| => LowerCase(s[k]))
  }

  /** The symbols of a data part, unless some character is not in the set. */
  function Symbolized(cs: Bytes): Option<Data> {
    if cs == [] then Some([])
    else
      var n := |cs| - 1;
      var before := Symbolized(cs[..n]);
      if before.None? || CharsetRev(cs[n]).None? then None
      else Some(before.value + [CharsetRev(cs[n]).value])
  }

  /** The last separator, or -1. */
  function RFind(s: Bytes): (pos: int)
    ensures -1 <= pos < |s|
    ensures pos >= 0 ==> s[pos] == SEPARATOR
    ensures forall k :: pos < k < |s| ==> s[k] != SEPARATOR
  {
    if s == [] then -1
    else if s[|s| - 1] == SEPARATOR then |s| - 1
    else RFind(s[..|s| - 1])
  }

  function EncodedString(encoding: Encoding, hrp: Bytes, values: Data): Bytes {
    hrp + [SEPARATOR] + Chars(values + Checksum(encoding, hrp, values))
  }

  /** Whether a separator leaves room for a human-readable part and a checksum. */
  ghost predicate Split(s: Bytes, limit: nat, pos: int) {
    Clean(s) && |s| <= limit && 0 < pos && pos + CHECKSUM_SIZE < |s|
  }

  function Finished(hrp: Bytes, values: Data): DecodeResult
    requires |values| >= CHECKSUM_SIZE
  {
    var encoding := Verified(hrp, values);
    if encoding.None? then Invalid else Decoded(encoding.value, hrp, values[..|values| - CHECKSUM_SIZE])
  }

  ghost function DecodedString(s: Bytes, limit: nat): DecodeResult {
    var pos := RFind(s);
    if !Split(s, limit, pos) then Invalid
    else
      var values := Symbolized(s[pos + 1..]);
      if values.None? then Invalid
      else
        SymbolizedLength(s[pos + 1..]);
        Finished(Lowered(s[..pos]), values.value)
  }

  lemma {:induction false} SymbolizedLength(cs: Bytes)
    ensures Symbolized(cs).Some? ==> |Symbolized(cs).value| == |cs|
    ensures Symbolized(cs).Some? ==> forall k :: 0 <= k < |cs| ==> CharsetRev(cs[k]) == Some(Symbolized(cs).value[k])
    ensures Symbolized(cs).None? ==> exists k :: 0 <= k < |cs| && CharsetRev(cs[k]).None?
  {
    hide CharsetRev;
    if cs != [] {
      SymbolizedLength(cs[..|cs| - 1]);
      assert forall k :: 0 <= k < |cs| - 1 ==> cs[..|cs| - 1][k] == cs[k];
    }
  }

  // ---------- The methods ----------

  method Encode(encoding: Encoding, hrp: Bytes, values: Data) returns (ret: Bytes)
    requires forall k :: 0 <= k < |hrp| ==> !IsUpper(hrp[k])
    requires AllSyms(values)
    ensures ret == EncodedString(encoding, hrp, values)
  {
    hide Charset, Checksum;
    ret := hrp + [SEPARATOR];
    for i := 0 to |values|
      invariant ret == hrp + [SEPARATOR] + Chars(values)[..i]
    {
      ret := ret + [Charset(values[i])];
    }
    var sum := CreateChecksum(encoding, hrp, values);
    ghost var all := values + sum;
    for i := 0 to |sum|
      invariant ret == hrp + [SEPARATOR] + Chars(all)[..|values| + i]
    {
      assert all[|values| + i] == sum[i];
      ret := ret + [Charset(sum[i])];
    }
  }

  method Decode(s: Bytes, limit: nat) returns (r: DecodeResult)
    ensures r == DecodedString(s, limit)
  {
    hide CharsetRev, Clean, Verified, LowerCase;
    var ok, errors := CheckCharacters(s);
    if !ok { return Invalid; }
    var pos := RFind(s);
    if |s| > limit { return Invalid; }
    if pos == -1 || pos == 0 || pos + CHECKSUM_SIZE >= |s| { return Invalid; }
    var cs := s[pos + 1..];
    SymbolizedLength(cs);
    var values := [];
    for i := 0 to |cs|
      invariant |values| == i
      invariant Symbolized(cs[..i]) == Some(values)
    {
      assert cs[..i + 1][..i] == cs[..i];
      var rev := CharsetRev(s[i + pos + 1]);
      if rev.None? {
        SymbolizedStops(cs, i);
        return Invalid;
      }
      values := values + [rev.value];
    }
    assert cs[..|cs|] == cs;
    var hrp := [];
    for i := 0 to pos
      invariant hrp == Lowered(s[..pos])[..i]
    {
      hrp := hrp + [LowerCase(s[i])];
    }
    assert hrp == Lowered(s[..pos]);
    assert DecodedString(s, limit) == Finished(hrp, values);
    var result := VerifyChecksum(hrp, values);
    if result.None? { return Invalid; }
    return Decoded(result.value, hrp, values[..|values| - CHECKSUM_SIZE]);
  }

  lemma SymbolizedStops(cs: Bytes, i: nat)
    requires i < |cs| && CharsetRev(cs[i]).None?
    ensures Symbolized(cs).None?
  {
    hide CharsetRev, Symbolized;
    SymbolizedLength(cs);
  }

  // ---------- Decoding what was encoded ----------

  lemma {:induction false} SymbolizedChars(vs: Data)
    requires AllSyms(vs)
    ensures Symbolized(Chars(vs)) == Some(vs)
  {
    hide Charset, CharsetRev, IsSym;
    if vs != [] {
      var n := |vs| - 1;
      SymbolizedChars(vs[..n]);
      assert Chars(vs)[..n] == Chars(vs[..n]);
      CharsetInverse(vs[n]);
      assert vs[..n] + [vs[n]] == vs;
    }
  }

  /** The separator found last is the one before a tail without separators. */
  lemma RFindAt(a: Bytes, b: Bytes)
    requires forall k :: 0 <= k < |b| ==> b[k] != SEPARATOR
    ensures RFind(a + [SEPARATOR] + b) == |a|
  {
    hide RFind;
    var s := a + [SEPARATOR] + b;
    assert s[|a|] == SEPARATOR;
    var pos := RFind(s);
  }

  lemma CleanParts(hrp: Bytes, vs: Data)
    requires forall k :: 0 <= k < |hrp| ==> !IsUpper(hrp[k])
    ensures Clean(hrp + [SEPARATOR] + Chars(vs)) <==> forall k :: 0 <= k < |hrp| ==> IsPrintable(hrp[k])
  {
    hide IsUpper, IsLower, IsPrintable, Charset;
    var s := hrp + [SEPARATOR] + Chars(vs);
    SeparatorKind();
    forall k | 0 <= k < |vs| ensures IsPrintable(Chars(vs)[k]) && !IsUpper(Chars(vs)[k]) { CharsetKind(vs[k]); }
    forall k | 0 <= k < |s| ensures !IsUpper(s[k]) {}
    assert forall k :: 0 <= k < |hrp| ==> s[k] == hrp[k];
  }

  lemma SeparatorKind()
    ensures IsPrintable(SEPARATOR) && !IsUpper(SEPARATOR)
  {
  }

  lemma LoweredSame(s: Bytes)
    requires forall k :: 0 <= k < |s| ==> !IsUpper(s[k])
    ensures Lowered(s) == s
  {
    hide IsUpper, LowerCase, IsPrintable;
    forall k | 0 <= k < |s| ensures Lowered(s)[k] == s[k] { LowerCaseFacts(s[k]); }
  }

  lemma FinishedChecksum(encoding: Encoding, hrp: Bytes, values: Data)
    requires AllSyms(values)
    ensures |Checksum(encoding, hrp, values)| == CHECKSUM_SIZE
    ensures Finished(hrp, values + Checksum(encoding, hrp, values)) == Decoded(encoding, hrp, values)
  {
    hide Verified, Checksum, IsSym;
    var sum := Checksum(encoding, hrp, values);
    ChecksumSyms(encoding, hrp, values);
    VerifiedExact(encoding, hrp, values, sum);
    assert (values + sum)[..|values + sum| - CHECKSUM_SIZE] == values;
  }

  /** Decoding an encoded string gives back its parts exactly when the human-readable part is
    * non-empty and printable and the string is within the limit; otherwise it is refused.
    */
  lemma DecodeEncoded(encoding: Encoding, hrp: Bytes, values: Data, limit: nat)
    requires forall k :: 0 <= k < |hrp| ==> !IsUpper(hrp[k])
    requires AllSyms(values)
    ensures DecodedString(EncodedString(encoding, hrp, values), limit) ==
      if hrp != [] && (forall k :: 0 <= k < |hrp| ==> IsPrintable(hrp[k])) && |hrp| + 1 + |values| + CHECKSUM_SIZE <= limit
      then Decoded(encoding, hrp, values)
      else Invalid
  {
    hide IsUpper, IsPrintable, Clean, Checksum, RFind, Symbolized, Finished, IsSym, Charset, Lowered;
    FinishedChecksum(encoding, hrp, values);
    ChecksumSyms(encoding, hrp, values);
    var all := values + Checksum(encoding, hrp, values);
    var s := hrp + [SEPARATOR] + Chars(all);
    forall k | 0 <= k < |all| ensures Chars(all)[k] != SEPARATOR { CharsetKind(all[k]); }
    RFindAt(hrp, Chars(all));
    CleanParts(hrp, all);
    assert s[|hrp| + 1..] == Chars(all);
    assert s[..|hrp|] == hrp;
    SymbolizedChars(all);
    LoweredSame(hrp);
  }

  // ---------- Encoding what was decoded ----------

  lemma CharsSymbolized(cs: Bytes)
    requires Symbolized(cs).Some?
    ensures AllSyms(Symbolized(cs).value) && Chars(Symbolized(cs).value) == Lowered(cs)
  {
    hide CharsetRev, IsSym, Charset, LowerCase, Symbolized;
    SymbolizedLength(cs);
    var vs := Symbolized(cs).value;
    forall k | 0 <= k < |cs| ensures IsSym(vs[k]) && Charset(vs[k]) == LowerCase(cs[k]) {
      RevInverse(cs[k]);
    }
  }

  /** What verifies ends in the checksum of what comes before it. */
  lemma FinishedEncodes(hrp: Bytes, values: Data)
    requires |values| >= CHECKSUM_SIZE && AllSyms(values) && Finished(hrp, values).Decoded?
    ensures var r := Finished(hrp, values);
      r.hrp == hrp && AllSyms(r.data) && values == r.data + Checksum(r.encoding, hrp, r.data)
  {
    hide Verified, Checksum, IsSym;
    var n := |values| - CHECKSUM_SIZE;
    var encoding := Verified(hrp, values).value;
    assert values[..n] + values[n..] == values;
    VerifiedExact(encoding, hrp, values[..n], values[n..]);
  }

  lemma LoweredParts(s: Bytes, pos: nat)
    requires pos < |s| && s[pos] == SEPARATOR
    ensures Lowered(s) == Lowered(s[..pos]) + [SEPARATOR] + Lowered(s[pos + 1..])
  {
    hide LowerCase, IsUpper, IsPrintable;
    LowerCaseFacts(SEPARATOR);
  }

  /** Encoding what a string decodes to gives the string back in lower case. */
  lemma EncodeDecoded(s: Bytes, limit: nat)
    requires DecodedString(s, limit).Decoded?
    ensures var r := DecodedString(s, limit);
      && EncodedString(r.encoding, r.hrp, r.data) == Lowered(s)
      && AllSyms(r.data)
      && forall k :: 0 <= k < |r.hrp| ==> !IsUpper(r.hrp[k])
  {
    hide IsUpper, IsPrintable, Clean, Checksum, Symbolized, Finished, IsSym, Charset, LowerCase, Chars, RFind, Lowered;
    var pos := RFind(s);
    var cs := s[pos + 1..];
    var values := Symbolized(cs).value;
    SymbolizedLength(cs);
    CharsSymbolized(cs);
    var hrp := Lowered(s[..pos]);
    FinishedEncodes(hrp, values);
    LoweredParts(s, pos);
    LoweredNoUpper(s[..pos]);
  }

  lemma LoweredNoUpper(s: Bytes)
    ensures forall k :: 0 <= k < |Lowered(s)| ==> !IsUpper(Lowered(s)[k])
  {
    hide IsUpper, IsPrintable, LowerCase;
    forall k | 0 <= k < |s| ensures !IsUpper(LowerCase(s[k])) { LowerCaseFacts(s[k]); }
  }

  /** Two accepted strings that decode to the same parts are equal up to case, so the six
    * checksum symbols are determined by the rest.
    */
  lemma SameDecoding(s: Bytes, t: Bytes, limit: nat)
    requires DecodedString(s, limit).Decoded? && DecodedString(s, limit) == DecodedString(t, limit)
    ensures Lowered(s) == Lowered(t)
  {
    hide DecodedString, EncodedString;
    EncodeDecoded(s, limit);
    EncodeDecoded(t, limit);
  }

  lemma LowerTwice(c: Byte)
    ensures LowerCase(LowerCase(c)) == LowerCase(c) && CharsetRev(LowerCase(c)) == CharsetRev(c)
    ensures LowerCase(c) == SEPARATOR <==> c == SEPARATOR
  {
    hide IsPrintable;
  }

  lemma {:induction false} SymbolizedLowered(cs: Bytes)
    ensures Symbolized(Lowered(cs)) == Symbolized(cs)
  {
    hide CharsetRev, LowerCase;
    if cs != [] {
      var n := |cs| - 1;
      SymbolizedLowered(cs[..n]);
      assert Lowered(cs)[..n] == Lowered(cs[..n]);
      LowerTwice(cs[n]);
    }
  }

  lemma {:induction false} RFindLowered(s: Bytes)
    ensures RFind(Lowered(s)) == RFind(s)
  {
    hide LowerCase;
    if s != [] {
      var n := |s| - 1;
      RFindLowered(s[..n]);
      assert Lowered(s)[..n] == Lowered(s[..n]);
      LowerTwice(s[n]);
    }
  }

  lemma LoweredClean(s: Bytes)
    requires Clean(s)
    ensures Clean(Lowered(s))
  {
    forall k | 0 <= k < |s| ensures IsPrintable(LowerCase(s[k])) && !IsUpper(LowerCase(s[k])) { LowerCaseFacts(s[k]); }
  }

  /** Case does not matter, but must not be mixed: a string decodes like its lower-case form if
    * all its characters are printable and it does not have letters of both cases; otherwise
    * it is refused.
    */
  lemma DecodeIgnoresCase(s: Bytes, limit: nat)
    ensures DecodedString(s, limit) ==
      if (forall i :: 0 <= i < |s| ==> 33 <= s[i] <= 126)
         && (forall i, j :: 0 <= i < |s| && 0 <= j < |s| ==> !(0x61 <= s[i] <= 0x7a && 0x41 <= s[j] <= 0x5a))
      then DecodedString(Lowered(s), limit) else Invalid
  {
    CleanMeans(s);
    hide Clean, LowerCase, IsPrintable, IsUpper, IsLower, RFind, Symbolized, Finished;
    if Clean(s) {
      var pos := RFind(s);
      LoweredClean(s);
      RFindLowered(s);
      if pos >= 0 {
        SymbolizedLowered(s[pos + 1..]);
        assert Lowered(s)[pos + 1..] == Lowered(s[pos + 1..]);
        LoweredTwice(s[..pos]);
        assert Lowered(s)[..pos] == Lowered(s[..pos]);
      }
    }
  }

  lemma LoweredTwice(s: Bytes)
    ensures Lowered(Lowered(s)) == Lowered(s)
  {
    hide LowerCase, CharsetRev;
    forall k | 0 <= k < |s| ensures LowerCase(LowerCase(s[k])) == LowerCase(s[k]) { LowerTwice(s[k]); }
  }

  lemma CleanMeans(s: Bytes)
    ensures Clean(s) <==>
      && (forall i :: 0 <= i < |s| ==> 33 <= s[i] <= 126)
      && (forall i, j :: 0 <= i < |s| && 0 <= j < |s| ==> !(0x61 <= s[i] <= 0x7a && 0x41 <= s[j] <= 0x5a))
  {
  }

  // ---------- Known strings ----------

  /** The symbols 0 to 31 in order are written "qpzry9x8gf2tvdw0s3jn54khce6mua7l". */
  lemma CharsetString()
    ensures Chars([0, 1, 2, 3, 4, 5, 6, 7, 8, 9, 10, 11, 12, 13, 14, 15]) ==
      [0x71, 0x70, 0x7a, 0x72, 0x79, 0x39, 0x78, 0x38, 0x67, 0x66, 0x32, 0x74, 0x76, 0x64, 0x77, 0x30]
    ensures Chars([16, 17, 18, 19, 20, 21, 22, 23, 24, 25, 26, 27, 28, 29, 30, 31]) ==
      [0x73, 0x33, 0x6a, 0x6e, 0x35, 0x34, 0x6b, 0x68, 0x63, 0x65, 0x36, 0x6d, 0x75, 0x61, 0x37, 0x6c]
  {
  }

  lemma RunThree(c: Word, u: Word, v: Word, w: Word)
    ensures Run(c, [u, v, w]) == Step(Step(Step(c, u), v), w)
  {
    hide Step, Run;
    var none: Data := [];
    assert none + [u] == [u] && [u] + [v] == [u, v] && [u, v] + [w] == [u, v, w];
    RunLast(c, none, u);
    RunLast(c, [u], v);
    RunLast(c, [u, v], w);
    RunNothing(c);
  }

  lemma RunNothing(c: Word)
    ensures Run(c, []) == c
  {
  }

  lemma RunSix(c: Word, u: Word, v: Word, w: Word, x: Word, y: Word, z: Word)
    ensures Run(c, [u, v, w, x, y, z]) == Step(Step(Step(Step(Step(Step(c, u), v), w), x), y), z)
  {
    hide Step, Run;
    var front: Data := [u, v, w];
    assert front + [x, y, z] == [u, v, w, x, y, z];
    RunConcat(c, front, [x, y, z]);
    RunThree(c, u, v, w);
    RunThree(Run(c, front), x, y, z);
  }

  lemma ExpandOne(c: Byte)
    ensures Expand([c]) == [High(c), 0, Low(c)]
  {
    hide High, Low;
  }

  lemma HalvesOfA()
    ensures High(0x61) == 3 && Low(0x61) == 1
  {
  }

  lemma StepsOfA()
    ensures Step(1, 3) == 0x23 && Step(0x23, 0) == 0x460 && Step(0x460, 1) == 0x8c01
  {
    hide Step, Feedback;
    FeedbackOne();
    FeedbackMore();
    StepIs(1, 3, 0, 0x20, 0x23, 0x23);
    StepIs(0x23, 0, 0, 0x460, 0x460, 0x460);
    StepIs(0x460, 1, 0, 0x8c00, 0x8c01, 0x8c01);
  }

  /** The register after "a". */
  lemma RegisterOfA()
    ensures HrpRegister([0x61]) == 0x8c01
  {
    hide Run, Step, High, Low, Expand;
    ExpandOne(0x61);
    HalvesOfA();
    RunThree(1, 3, 0, 1);
    StepsOfA();
  }

  lemma StepsOfBech32()
    ensures Step(0x8c01, 10) == 0x11802a && Step(0x11802a, 28) == 0x230055c && Step(0x230055c, 25) == 0x3d6afc2b
    ensures Step(0x3d6afc2b, 31) == 0x2f84386 && Step(0x2f84386, 20) == 0x24622766 && Step(0x24622766, 31) == 1
  {
    hide Step, Feedback;
    FeedbackOne();
    FeedbackMore();
    StepIs(0x8c01, 10, 0, 0x118020, 0x11802a, 0x11802a);
    StepIs(0x11802a, 28, 0, 0x2300540, 0x230055c, 0x230055c);
    StepIs(0x230055c, 25, 1, 0x600ab80, 0x600ab99, 0x3d6afc2b);
    StepIs(0x3d6afc2b, 31, 30, 0x2d5f8560, 0x2d5f857f, 0x2f84386);
    StepIs(0x2f84386, 20, 1, 0x1f0870c0, 0x1f0870d4, 0x24622766);
    StepIs(0x24622766, 31, 18, 0xc44ecc0, 0xc44ecdf, 1);
  }

  lemma StepsOfBech32m()
    ensures Step(0x8c01, 31) == 0x11803f && Step(0x11803f, 0) == 0x23007e0 && Step(0x23007e0, 9) == 0x3d6aabbb
    ensures Step(0x3d6aabbb, 19) == 0x2f2b18a && Step(0x2f2b18a, 17) == 0x253c66e3 && Step(0x253c66e3, 29) == 0x2bc830a3
  {
    hide Step, Feedback;
    FeedbackOne();
    FeedbackMore();
    StepIs(0x8c01, 31, 0, 0x118020, 0x11803f, 0x11803f);
    StepIs(0x11803f, 0, 0, 0x23007e0, 0x23007e0, 0x23007e0);
    StepIs(0x23007e0, 9, 1, 0x600fc00, 0x600fc09, 0x3d6aabbb);
    StepIs(0x3d6aabbb, 19, 30, 0x2d557760, 0x2d557773, 0x2f2b18a);
    StepIs(0x2f2b18a, 17, 1, 0x1e563140, 0x1e563151, 0x253c66e3);
    StepIs(0x253c66e3, 29, 18, 0x278cdc60, 0x278cdc7d, 0x2bc830a3);
  }

  lemma ChecksumsOfA()
    ensures Verified([0x61], [10, 28, 25, 31, 20, 31]) == Some(BECH32)
    ensures Verified([0x61], [31, 0, 9, 19, 17, 29]) == Some(BECH32M)
  {
    hide Run, Step, HrpRegister;
    RegisterOfA();
    RunSix(0x8c01, 10, 28, 25, 31, 20, 31);
    StepsOfBech32();
    RunSix(0x8c01, 31, 0, 9, 19, 17, 29);
    StepsOfBech32m();
  }

  lemma CharsOfA()
    ensures Chars([10, 28, 25, 31, 20, 31]) == [0x32, 0x75, 0x65, 0x6c, 0x35, 0x6c]
    ensures Chars([31, 0, 9, 19, 17, 29]) == [0x6c, 0x71, 0x66, 0x6e, 0x33, 0x61]
  {
  }

  /** "a12uel5l" is Bech32 and "a1lqfn3a" is Bech32m, both of "a" without data. */
  lemma KnownStrings()
    ensures EncodedString(BECH32, [0x61], []) == [0x61, 0x31, 0x32, 0x75, 0x65, 0x6c, 0x35, 0x6c]
    ensures EncodedString(BECH32M, [0x61], []) == [0x61, 0x31, 0x6c, 0x71, 0x66, 0x6e, 0x33, 0x61]
    ensures DecodedString([0x61, 0x31, 0x32, 0x75, 0x65, 0x6c, 0x35, 0x6c], 90) == Decoded(BECH32, [0x61], [])
    ensures DecodedString([0x61, 0x31, 0x6c, 0x71, 0x66, 0x6e, 0x33, 0x61], 90) == Decoded(BECH32M, [0x61], [])
  {
    hide Verified, DecodedString, EncodedString, Chars;
    ChecksumsOfA();
    CharsOfA();
    OnlyChecksum(BECH32, [0x61], [10, 28, 25, 31, 20, 31]);
    OnlyChecksum(BECH32M, [0x61], [31, 0, 9, 19, 17, 29]);
  }

  /** The string without data for six symbols that verify. */
  lemma OnlyChecksum(encoding: Encoding, hrp: Bytes, sum: Data)
    requires hrp != [] && forall k :: 0 <= k < |hrp| ==> IsPrintable(hrp[k]) && !IsUpper(hrp[k])
    requires AllSyms(sum) && |sum| == 6 && |hrp| + 7 <= 90 && Verified(hrp, sum) == Some(encoding)
    ensures EncodedString(encoding, hrp, []) == hrp + [0x31] + Chars(sum)
    ensures DecodedString(hrp + [0x31] + Chars(sum), 90) == Decoded(encoding, hrp, [])
  {
    hide Checksum, Verified, DecodedString, Chars, IsSym, IsPrintable, IsUpper;
    var none: Data := [];
    assert none + sum == sum;
    VerifiedExact(encoding, hrp, none, sum);
    DecodeEncoded(encoding, hrp, none, 90);
  }
}
