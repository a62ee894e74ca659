/** Bech32 and Bech32m strings. A string is a list of bytes; symbols are words below 32. */
module Bech32 {
  import opened Bech32Field
  import opened Bech32Checksum

  datatype Option<T> = None | Some(value: T)

  type Byte = bv8
  type Bytes = seq<Byte>

  const SEPARATOR: Byte := 0x31

  // ---------- Characters ----------

  predicate IsLower(c: Byte) { 0x61 <= c <= 0x7a }
  predicate IsUpper(c: Byte) { 0x41 <= c <= 0x5a }
  predicate IsPrintable(c: Byte) { 33 <= c <= 126 }

  function LowerCase(c: Byte): Byte {
    if IsUpper(c) then c - 0x41 + 0x61 else c
  }

  /** The character set for encoding: "qpzry9x8gf2tvdw0s3jn54khce6mua7l". */
  function Charset(v: Word): Byte {
    if v < 8 then
      if v == 0 then 0x71 else if v == 1 then 0x70 else if v == 2 then 0x7a else if v == 3 then 0x72 else if v == 4 then 0x79 else if v == 5 then 0x39 else if v == 6 then 0x78 else 0x38
    else if v < 16 then
      if v == 8 then 0x67 else if v == 9 then 0x66 else if v == 10 then 0x32 else if v == 11 then 0x74 else if v == 12 then 0x76 else if v == 13 then 0x64 else if v == 14 then 0x77 else 0x30
    else if v < 24 then
      if v == 16 then 0x73 else if v == 17 then 0x33 else if v == 18 then 0x6a else if v == 19 then 0x6e else if v == 20 then 0x35 else if v == 21 then 0x34 else if v == 22 then 0x6b else 0x68
    else
      if v == 24 then 0x63 else if v == 25 then 0x65 else if v == 26 then 0x36 else if v == 27 then 0x6d else if v == 28 then 0x75 else if v == 29 then 0x61 else if v == 30 then 0x37 else 0x6c
  }

  function RevLower(c: Byte): Option<Word> {
    if c == 0x30 then Some(15) else if c == 0x32 then Some(10) else if c == 0x33 then Some(17) else if c == 0x34 then Some(21) else 
    if c == 0x35 then Some(20) else if c == 0x36 then Some(26) else if c == 0x37 then Some(30) else if c == 0x38 then Some(7) else 
    if c == 0x39 then Some(5) else if c == 0x61 then Some(29) else if c == 0x63 then Some(24) else if c == 0x64 then Some(13) else 
    if c == 0x65 then Some(25) else if c == 0x66 then Some(9) else if c == 0x67 then Some(8) else if c == 0x68 then Some(23) else 
    if c == 0x6a then Some(18) else if c == 0x6b then Some(22) else if c == 0x6c then Some(31) else if c == 0x6d then Some(27) else 
    if c == 0x6e then Some(19) else if c == 0x70 then Some(1) else if c == 0x71 then Some(0) else if c == 0x72 then Some(3) else 
    if c == 0x73 then Some(16) else if c == 0x74 then Some(11) else if c == 0x75 then Some(28) else if c == 0x76 then Some(12) else 
    if c == 0x77 then Some(14) else if c == 0x78 then Some(6) else if c == 0x79 then Some(4) else if c == 0x7a then Some(2) else 
    None
  }

  /** The character set for decoding; both cases of a letter stand for the same symbol. */
  function CharsetRev(c: Byte): Option<Word> {
    RevLower(LowerCase(c))
  }

  lemma CharsetInverse(v: Word)
    requires IsSym(v)
    ensures CharsetRev(Charset(v)) == Some(v)
  {
    hide LowerCase, RevLower, Charset;
    CharsetKind(v);
    LowerCaseFacts(Charset(v));
    RevCharset(v);
  }

  lemma RevCharset(v: Word)
    requires IsSym(v)
    ensures RevLower(Charset(v)) == Some(v)
  {
  }

  lemma CharsetKind(v: Word)
    ensures IsPrintable(Charset(v)) && !IsUpper(Charset(v)) && Charset(v) != SEPARATOR
  {
  }

  lemma RevInverse(c: Byte)
    requires CharsetRev(c).Some?
    ensures IsSym(CharsetRev(c).value) && Charset(CharsetRev(c).value) == LowerCase(c)
  {
    hide RevLower, Charset, LowerCase;
    CharsetRevLower(LowerCase(c));
  }

  lemma CharsetRevLower(c: Byte)
    requires RevLower(c).Some?
    ensures IsSym(RevLower(c).value) && Charset(RevLower(c).value) == c
  {
  }

  lemma LowerCaseFacts(c: Byte)
    ensures !IsUpper(LowerCase(c)) && (IsPrintable(c) ==> IsPrintable(LowerCase(c)))
    ensures !IsUpper(c) ==> LowerCase(c) == c
    ensures LowerCase(c) == SEPARATOR <==> c == SEPARATOR
  {
  }

  // ---------- Characters of a whole string ----------

  datatype Case = NoLetter | Lower | Upper

  /** The case of the first letter, if there is one. */
  function FirstCase(s: Bytes): Case {
    if s == [] then NoLetter
    else
      var before := FirstCase(s[..|s| - 1]);
      if before != NoLetter then before
      else if IsLower(s[|s| - 1]) then Lower
      else if IsUpper(s[|s| - 1]) then Upper
      else NoLetter
  }

  lemma FirstCaseNext(s: Bytes, i: nat)
    requires i < |s|
    ensures FirstCase(s[..i + 1]) ==
      var before := FirstCase(s[..i]);
      if before != NoLetter then before else if IsLower(s[i]) then Lower else if IsUpper(s[i]) then Upper else NoLetter
  {
    assert s[..i + 1][..i] == s[..i];
  }

  /** Not printable, or a letter whose case differs from the first letter's. */
  predicate BadAt(s: Bytes, i: nat)
    requires i < |s|
  {
    if IsLower(s[i]) then FirstCase(s[..i]) == Upper
    else if IsUpper(s[i]) then FirstCase(s[..i]) == Lower
    else !IsPrintable(s[i])
  }

  /** All printable, and not both cases. */
  ghost predicate Clean(s: Bytes) {
    && (forall i :: 0 <= i < |s| ==> IsPrintable(s[i]))
    && !((exists i :: 0 <= i < |s| && IsLower(s[i])) && (exists i :: 0 <= i < |s| && IsUpper(s[i])))
  }

  lemma {:induction false} FirstCaseMeaning(s: Bytes)
    ensures FirstCase(s) == NoLetter <==> forall i :: 0 <= i < |s| ==> !IsLower(s[i]) && !IsUpper(s[i])
    ensures FirstCase(s) == Lower ==> exists i :: 0 <= i < |s| && IsLower(s[i])
    ensures FirstCase(s) == Upper ==> exists i :: 0 <= i < |s| && IsUpper(s[i])
  {
    hide IsLower, IsUpper;
    if s != [] {
      var n := |s| - 1;
      FirstCaseMeaning(s[..n]);
      assert forall i :: 0 <= i < n ==> s[..n][i] == s[i];
    }
  }

  lemma {:induction false} FirstCaseStays(s: Bytes, i: nat)
    requires i <= |s| && FirstCase(s[..i]) != NoLetter
    ensures FirstCase(s) == FirstCase(s[..i])
    decreases |s| - i
  {
    hide IsLower, IsUpper;
    if i == |s| {
      assert s[..i] == s;
    } else {
      FirstCaseNext(s, i);
      FirstCaseStays(s, i + 1);
    }
  }

  lemma CaseSplit(c: Byte)
    ensures !(IsLower(c) && IsUpper(c)) && (IsLower(c) || IsUpper(c) ==> IsPrintable(c))
  {
  }

  /** Nothing is reported exactly for clean strings. */
  lemma CleanExact(s: Bytes)
    ensures Clean(s) <==> forall i :: 0 <= i < |s| ==> !BadAt(s, i)
  {
    hide IsLower, IsUpper, IsPrintable, FirstCase;
    if Clean(s) {
      forall i | 0 <= i < |s| ensures !BadAt(s, i) { CleanNotBad(s, i); }
    }
    if forall i :: 0 <= i < |s| ==> !BadAt(s, i) {
      forall i | 0 <= i < |s| ensures IsPrintable(s[i]) { assert !BadAt(s, i); CaseSplit(s[i]); }
      forall i, j | 0 <= i < |s| && 0 <= j < |s| && IsLower(s[i]) ensures !IsUpper(s[j]) { NotBadOneCase(s, i, j); }
    }
  }

  lemma CleanNotBad(s: Bytes, i: nat)
    requires Clean(s) && i < |s|
    ensures !BadAt(s, i)
  {
    hide IsLower, IsUpper, IsPrintable, FirstCase;
    FirstCaseMeaning(s[..i]);
    assert forall k :: 0 <= k < i ==> s[..i][k] == s[k];
  }

  /** The first letter's case is every letter's case. */
  lemma LetterCase(s: Bytes, i: nat)
    requires i < |s| && !BadAt(s, i)
    ensures IsLower(s[i]) ==> FirstCase(s) == Lower
    ensures IsUpper(s[i]) ==> FirstCase(s) == Upper
  {
    hide IsLower, IsUpper, IsPrintable, FirstCase;
    CaseSplit(s[i]);
    FirstCaseNext(s, i);
    if IsLower(s[i]) || IsUpper(s[i]) {
      FirstCaseStays(s, i + 1);
    }
  }

  lemma NotBadOneCase(s: Bytes, i: nat, j: nat)
    requires i < |s| && j < |s| && IsLower(s[i]) && !BadAt(s, i) && !BadAt(s, j)
    ensures !IsUpper(s[j])
  {
    hide IsLower, IsUpper, IsPrintable, FirstCase, BadAt;
    LetterCase(s, i);
    LetterCase(s, j);
  }

  method CheckCharacters(s: Bytes) returns (ok: bool, errors: seq<nat>)
    ensures forall i :: 0 <= i < |s| ==> (BadAt(s, i) <==> i in errors)
    ensures forall k, l :: 0 <= k < l < |errors| ==> errors[k] < errors[l]
    ensures forall k :: 0 <= k < |errors| ==> errors[k] < |s|
    ensures ok <==> Clean(s)
  {
    hide IsLower, IsUpper, IsPrintable, Clean, FirstCase;
    FirstCaseMeaning([]);
    assert s[..0] == [];
    errors := [];
    var lower, upper := false, false;
    var i := 0;
    while i < |s|
      invariant 0 <= i <= |s|
      invariant lower <==> FirstCase(s[..i]) == Lower
      invariant upper <==> FirstCase(s[..i]) == Upper
      invariant forall k, l :: 0 <= k < l < |errors| ==> errors[k] < errors[l]
      invariant forall k :: 0 <= k < |errors| ==> errors[k] < i && BadAt(s, errors[k])
      invariant forall k :: 0 <= k < i && BadAt(s, k) ==> k in errors
    {
      var c := s[i];
      CaseSplit(c);
      FirstCaseNext(s, i);
      if IsLower(c) {
        if upper { errors := errors + [i]; } else { lower := true; }
      } else if IsUpper(c) {
        if lower { errors := errors + [i]; } else { upper := true; }
      } else if !IsPrintable(c) {
        errors := errors + [i];
      }
      i := i + 1;
    }
    CleanExact(s);
    ok := errors == [];
    assert !ok ==> BadAt(s, errors[0]);
  }

  // ---------- The checksum of a string ----------

  function High(c: Byte): Word { (c >> 5) as Word }
  function Low(c: Byte): Word { (c & 0x1f) as Word }

  function HighBits(hrp: Bytes): (r: Data)
    ensures |r| == |hrp| && forall k :: 0 <= k < |r| ==> r[k] == High(hrp[k])
  {
    seq(|hrp|, k requires 0 <= k < |hrp| => High(hrp[k]))
  }

  function LowBits(hrp: Bytes): (r: Data)
    ensures |r| == |hrp| && forall k :: 0 <= k < |r| ==> r[k] == Low(hrp[k])
  {
    seq(|hrp|, k requires 0 <= k < |hrp| => Low(hrp[k]))
  }

  /** The human-readable part as symbols: high bits, a zero, low bits. */
  function Expand(hrp: Bytes): Data {
    HighBits(hrp) + [0] + LowBits(hrp)
  }

  lemma ByteHalves(c: Byte)
    ensures IsSym(High(c)) && IsSym(Low(c))
  {
  }

  lemma ExpandSyms(hrp: Bytes)
    ensures AllSyms(Expand(hrp))
  {
    forall k | 0 <= k < |hrp| ensures IsSym(HighBits(hrp)[k]) && IsSym(LowBits(hrp)[k]) {
      ByteHalves(hrp[k]);
    }
  }

  /** The register when the human-readable part has been read. */
  function HrpRegister(hrp: Bytes): Word {
    Run(1, Expand(hrp))
  }

  lemma HrpRange(hrp: Bytes)
    ensures HrpRegister(hrp) < TOP
  {
    hide Run, Expand;
    ExpandSyms(hrp);
    RunRange(1, Expand(hrp));
  }

  function Verified(hrp: Bytes, values: Data): Option<Encoding> {
    var check := Run(HrpRegister(hrp), values);
    if check == EncodingConstant(BECH32) then Some(BECH32)
    else if check == EncodingConstant(BECH32M) then Some(BECH32M)
    else None
  }

  function Checksum(encoding: Encoding, hrp: Bytes, values: Data): Data {
    ChecksumFrom(Run(HrpRegister(hrp), values), EncodingConstant(encoding))
  }

  lemma ChecksumSyms(encoding: Encoding, hrp: Bytes, values: Data)
    ensures AllSyms(Checksum(encoding, hrp, values)) && |Checksum(encoding, hrp, values)| == CHECKSUM_SIZE
  {
    hide Run, Symbols, IsSym;
    SymbolsAreSyms(Xor(Run(Run(HrpRegister(hrp), values), Zeros(CHECKSUM_SIZE)), EncodingConstant(encoding)));
  }

  /** Six symbols verify under an encoding exactly when they are its checksum. */
  lemma VerifiedExact(encoding: Encoding, hrp: Bytes, values: Data, sum: Data)
    requires AllSyms(values) && AllSyms(sum) && |sum| == CHECKSUM_SIZE
    ensures Verified(hrp, values + sum) == Some(encoding) <==> sum == Checksum(encoding, hrp, values)
  {
    hide Run, IsSym, HrpRegister, ChecksumFrom;
    var c := HrpRegister(hrp);
    HrpRange(hrp);
    RunRange(c, values);
    RunConcat(c, values, sum);
    ChecksumUnique(Run(c, values), EncodingConstant(encoding), sum);
  }

  /** Two value lists under one human-readable part that differ, but only within six
    * consecutive positions, do not both verify under the same encoding.
    */
  lemma BurstRejected(hrp: Bytes, vs: Data, ws: Data, p: nat)
    requires |vs| == |ws| && AllSyms(vs) && AllSyms(ws) && vs != ws && DifferWithin(vs, ws, p)
    ensures Verified(hrp, vs).None? || Verified(hrp, ws).None? || Verified(hrp, vs) != Verified(hrp, ws)
  {
    hide Run, HrpRegister, IsSym;
    BurstDetected(HrpRegister(hrp), vs, ws, p);
  }

  // ---------- The checksum methods ----------

  // ---------- Zeros before a final one ----------

  /** The last symbol is added to what the register would be after a zero. */
  lemma StepOne(c: Word)
    ensures Step(c, 1) == Xor(Step(c, 0), 1)
  {
    hide Step, Xor;
    StepLinear(c, 0, 0, 1);
    OneAlone();
  }

  lemma OneAlone()
    ensures Step(0, 1) == 1 && (forall c :: Xor(c, 0) == c) && Xor(0, 1) == 1
  {
  }

  lemma XorOne(a: Word, b: Word)
    ensures Xor(a, 1) == b <==> a == Xor(b, 1)
  {
    hide Xor;
    XorUndo(a, 1);
    XorUndo(b, 1);
  }

  /** A final one leaves the register at one exactly when it was zero before. */
  lemma StepToOne(c: Word)
    requires c < TOP
    ensures Step(c, 1) == 1 <==> c == 0
  {
    hide Step;
    StepOne(c);
    XorOne(Step(c, 0), 1);
    if c == 0 { StepZero(); } else { StepNonzero(c); }
  }

  lemma RunLast(c: Word, vs: Data, v: Word)
    ensures Run(c, vs + [v]) == Step(Run(c, vs), v)
  {
    hide Step;
    assert (vs + [v])[..|vs|] == vs;
  }

  /** Bech32 does not notice zeros put in or left out before a final one; that is its known
    * weakness.
    */
  lemma ZerosUnnoticed(hrp: Bytes, vs: Data, n: nat)
    requires AllSyms(vs)
    ensures Verified(hrp, vs + [1]) == Some(BECH32) <==> Verified(hrp, vs + Zeros(n) + [1]) == Some(BECH32)
  {
    hide Run, Step, HrpRegister, IsSym;
    var c := HrpRegister(hrp);
    HrpRange(hrp);
    RunRange(c, vs);
    RunConcat(c, vs, Zeros(n));
    RunZeros(Run(c, vs), n);
    RunLast(c, vs, 1);
    RunLast(c, vs + Zeros(n), 1);
    StepToOne(Run(c, vs));
    StepToOne(Run(c, vs + Zeros(n)));
  }

  /** The constant of Bech32m is not one the zero step leaves alone. */
  lemma ConstantMoves()
    ensures Xor(EncodingConstant(BECH32M), 1) == 0x2bc830a2 && Step(0x2bc830a2, 0) != 0x2bc830a2
  {
    hide Step, Feedback;
    FeedbackOne();
    FeedbackMore();
    StepIs(0x2bc830a2, 0, 21, 0x39061440, 0x39061440, 0x36d938bb);
  }

  /** Bech32m does notice: a list and the list with a zero put in before its final one never
    * both verify.
    */
  lemma ZeroNoticed(hrp: Bytes, vs: Data)
    ensures !(Verified(hrp, vs + [1]) == Some(BECH32M) && Verified(hrp, vs + [0, 1]) == Some(BECH32M))
  {
    hide Run, Step, Xor, HrpRegister;
    var c := HrpRegister(hrp);
    var k := EncodingConstant(BECH32M);
    assert vs + [0, 1] == vs + [0] + [1];
    RunLast(c, vs, 1);
    RunLast(c, vs, 0);
    RunLast(c, vs + [0], 1);
    var r := Run(c, vs);
    StepOne(r);
    StepOne(Step(r, 0));
    XorOne(Step(r, 0), k);
    XorOne(Step(Step(r, 0), 0), k);
    ConstantMoves();
  }

  function ShiftIn(c: Word, v: Word): (r: Word)
    ensures r == Xor(Shifted(c), v)
  {
    XorDef(Shifted(c), v);
    ((c & 0x1ffffff) << 5) ^ v
  }

  function AddMultiple(c: Word, lead: Word, bit: Word, k: Word): (r: Word)
    ensures r == Xor(c, Pick(lead, bit, k))
  {
    CondXor(c, lead & bit != 0, k);
    if lead & bit != 0 then c ^ k else c
  }

  lemma CondXor(c: Word, p: bool, k: Word)
    ensures (if p then c ^ k else c) == Xor(c, When(p, k))
  {
    hide Xor;
    XorDef(c, k);
    XorZero(c);
  }

  lemma XorAssoc(a: Word, b: Word, c: Word)
    ensures Xor(Xor(a, b), c) == Xor(a, Xor(b, c))
  {
    hide Xor;
    Medial(a, b, 0, c);
    XorZero(a);
    XorComm(0, c);
    XorZero(c);
  }

  lemma FeedbackAssoc(x: Word, c0: Word)
    ensures Xor(Xor(Xor(Xor(Xor(x, Pick(c0, 1, 0x3b6a57b2)), Pick(c0, 2, 0x26508e6d)), Pick(c0, 4, 0x1ea119fa)),
                    Pick(c0, 8, 0x3d4233dd)), Pick(c0, 16, 0x2a1462b3)) == Xor(x, Feedback(c0))
  {
    hide Xor, Pick;
    var p1, p2, p4, p8, p16 := Pick(c0, 1, 0x3b6a57b2), Pick(c0, 2, 0x26508e6d), Pick(c0, 4, 0x1ea119fa),
                               Pick(c0, 8, 0x3d4233dd), Pick(c0, 16, 0x2a1462b3);
    XorAssoc(x, p1, p2);
    XorAssoc(x, Xor(p1, p2), p4);
    XorAssoc(x, Xor(Xor(p1, p2), p4), p8);
    XorAssoc(x, Xor(Xor(Xor(p1, p2), p4), p8), p16);
  }

  /** One turn of the PolyMod loop, as it is written. */
  method StepOnce(c: Word, v: Word) returns (r: Word)
    ensures r == Step(c, v)
  {
    hide Xor, Pick, Feedback, Shifted, ShiftIn, AddMultiple, Lead;
    var c0 := Lead(c);
    r := ShiftIn(c, v);
    FeedbackAssoc(r, c0);
    r := AddMultiple(r, c0, 1, 0x3b6a57b2);
    r := AddMultiple(r, c0, 2, 0x26508e6d);
    r := AddMultiple(r, c0, 4, 0x1ea119fa);
    r := AddMultiple(r, c0, 8, 0x3d4233dd);
    r := AddMultiple(r, c0, 16, 0x2a1462b3);
  }

  method PolyMod(v: Data) returns (c: Word)
    ensures c == Run(1, v)
  {
    hide Step;
    c := 1;
    var i := 0;
    while i < |v|
      invariant 0 <= i <= |v|
      invariant c == Run(1, v[..i])
    {
      assert v[..i + 1][..i] == v[..i];
      c := StepOnce(c, v[i]);
      i := i + 1;
    }
    assert v[..i] == v;
  }

  method PreparePolynomialCoefficients(hrp: Bytes, values: Data) returns (ret: Data)
    ensures ret == Expand(hrp) + values
  {
    ret := [];
    for i := 0 to |hrp|
      invariant ret == HighBits(hrp)[..i]
    {
      ret := ret + [High(hrp[i])];
    }
    ret := ret + [0];
    for i := 0 to |hrp|
      invariant ret == HighBits(hrp) + [0] + LowBits(hrp)[..i]
    {
      ret := ret + [Low(hrp[i])];
    }
    ret := ret + values;
  }

  method VerifyChecksum(hrp: Bytes, values: Data) returns (r: Option<Encoding>)
    ensures r == Verified(hrp, values)
  {
    hide Run, Expand;
    var enc := PreparePolynomialCoefficients(hrp, values);
    var check := PolyMod(enc);
    RunConcat(1, Expand(hrp), values);
    if check == EncodingConstant(BECH32) { return Some(BECH32); }
    if check == EncodingConstant(BECH32M) { return Some(BECH32M); }
    return None;
  }

  method CreateChecksum(encoding: Encoding, hrp: Bytes, values: Data) returns (ret: Data)
    ensures ret == Checksum(encoding, hrp, values)
  {
    hide Run, Expand, SymbolAt, Xor;
    var enc := PreparePolynomialCoefficients(hrp, values);
    enc := enc + Zeros(CHECKSUM_SIZE);
    var mod := PolyMod(enc);
    RunConcat(1, Expand(hrp) + values, Zeros(CHECKSUM_SIZE));
    RunConcat(1, Expand(hrp), values);
    mod := Xor(mod, EncodingConstant(encoding));
    ret := [];
    for i := 0 to CHECKSUM_SIZE
      invariant ret == Symbols(mod)[..i]
    {
      ret := ret + [SymbolAt(mod, i)];
    }
  }
}
