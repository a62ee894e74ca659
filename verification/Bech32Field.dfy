/** The Bech32 checksum register: one step of PolyMod, its linearity and its injectivity.
  *
  * The register is a 30-bit word of six 5-bit coefficients. `Xor` names the exclusive or,
  * so that proofs about whole lists reason with its laws instead of with bits.
  */
module Bech32Field {

  type Word = bv32

  const TOP: Word := 0x4000_0000

  predicate IsSym(v: Word) { v < 32 }

  function Xor(a: Word, b: Word): Word { a ^ b }

  lemma XorDef(a: Word, b: Word)
    ensures Xor(a, b) == a ^ b
  {
  }

  lemma XorComm(a: Word, b: Word)
    ensures Xor(a, b) == Xor(b, a)
  {
  }

  lemma XorZero(a: Word)
    ensures Xor(a, 0) == a && Xor(a, a) == 0
  {
  }

  lemma XorUndo(a: Word, b: Word)
    ensures Xor(Xor(a, b), b) == a
  {
  }

  lemma XorSame(a: Word, b: Word)
    ensures Xor(a, b) == 0 <==> a == b
  {
  }

  lemma XorTop(a: Word, b: Word)
    requires a < TOP && b < TOP
    ensures Xor(a, b) < TOP
  {
  }

  lemma XorSym(a: Word, b: Word)
    requires IsSym(a) && IsSym(b)
    ensures IsSym(Xor(a, b))
  {
  }

  lemma MedialBits(a: Word, b: Word, c: Word, d: Word, ab: Word, cd: Word, ac: Word, bd: Word)
    requires ab == a ^ b && cd == c ^ d && ac == a ^ c && bd == b ^ d
    ensures ab ^ cd == ac ^ bd
  {
  }

  lemma Medial(a: Word, b: Word, c: Word, d: Word)
    ensures Xor(Xor(a, b), Xor(c, d)) == Xor(Xor(a, c), Xor(b, d))
  {
    hide Xor;
    var ab, cd, ac, bd := Xor(a, b), Xor(c, d), Xor(a, c), Xor(b, d);
    XorDef(a, b);
    XorDef(c, d);
    XorDef(a, c);
    XorDef(b, d);
    MedialBits(a, b, c, d, ab, cd, ac, bd);
    XorDef(ab, cd);
    XorDef(ac, bd);
  }

  // ---------- One step ----------

  /** The generator multiple for one bit of the leading coefficient. */
  function Pick(c0: Word, bit: Word, k: Word): Word {
    When(c0 & bit != 0, k)
  }

  function Feedback(c0: Word): Word {
    Xor(Xor(Xor(Xor(Pick(c0, 1, 0x3b6a57b2), Pick(c0, 2, 0x26508e6d)), Pick(c0, 4, 0x1ea119fa)),
            Pick(c0, 8, 0x3d4233dd)), Pick(c0, 16, 0x2a1462b3))
  }

  function Shifted(c: Word): Word { (c & 0x1ffffff) << 5 }

  function Lead(c: Word): Word { c >> 25 }

  /** Multiply the register by x, add the next symbol, and reduce. */
  function Step(c: Word, v: Word): Word {
    Xor(Xor(Shifted(c), v), Feedback(Lead(c)))
  }

  lemma BitsXor(a: Word, b: Word)
    ensures (a ^ b) & 1 != 0 <==> (a & 1 != 0) != (b & 1 != 0)
    ensures (a ^ b) & 2 != 0 <==> (a & 2 != 0) != (b & 2 != 0)
    ensures (a ^ b) & 4 != 0 <==> (a & 4 != 0) != (b & 4 != 0)
    ensures (a ^ b) & 8 != 0 <==> (a & 8 != 0) != (b & 8 != 0)
    ensures (a ^ b) & 16 != 0 <==> (a & 16 != 0) != (b & 16 != 0)
  {
  }

  function When(p: bool, k: Word): Word { if p then k else 0 }

  lemma WhenXor(p: bool, q: bool, k: Word)
    ensures When(p != q, k) == Xor(When(p, k), When(q, k))
  {
    XorZero(k);
    XorDef(0, k);
    XorDef(0, 0);
  }

  lemma PickXor(a: Word, b: Word, bit: Word, k: Word)
    requires (a ^ b) & bit != 0 <==> (a & bit != 0) != (b & bit != 0)
    ensures Pick(Xor(a, b), bit, k) == Xor(Pick(a, bit, k), Pick(b, bit, k))
  {
    hide Xor, When;
    XorDef(a, b);
    WhenXor(a & bit != 0, b & bit != 0, k);
  }

  lemma FeedbackXor(a: Word, b: Word)
    ensures Feedback(Xor(a, b)) == Xor(Feedback(a), Feedback(b))
  {
    hide Pick, Xor;
    PicksXor(a, b);
    var p1, q1 := Pick(a, 1, 0x3b6a57b2), Pick(b, 1, 0x3b6a57b2);
    var p2, q2 := Pick(a, 2, 0x26508e6d), Pick(b, 2, 0x26508e6d);
    var p4, q4 := Pick(a, 4, 0x1ea119fa), Pick(b, 4, 0x1ea119fa);
    var p8, q8 := Pick(a, 8, 0x3d4233dd), Pick(b, 8, 0x3d4233dd);
    var p16, q16 := Pick(a, 16, 0x2a1462b3), Pick(b, 16, 0x2a1462b3);
    Medial(p1, q1, p2, q2);
    Medial(Xor(p1, p2), Xor(q1, q2), p4, q4);
    Medial(Xor(Xor(p1, p2), p4), Xor(Xor(q1, q2), q4), p8, q8);
    Medial(Xor(Xor(Xor(p1, p2), p4), p8), Xor(Xor(Xor(q1, q2), q4), q8), p16, q16);
  }

  lemma PicksXor(a: Word, b: Word)
    ensures Pick(Xor(a, b), 1, 0x3b6a57b2) == Xor(Pick(a, 1, 0x3b6a57b2), Pick(b, 1, 0x3b6a57b2))
    ensures Pick(Xor(a, b), 2, 0x26508e6d) == Xor(Pick(a, 2, 0x26508e6d), Pick(b, 2, 0x26508e6d))
    ensures Pick(Xor(a, b), 4, 0x1ea119fa) == Xor(Pick(a, 4, 0x1ea119fa), Pick(b, 4, 0x1ea119fa))
    ensures Pick(Xor(a, b), 8, 0x3d4233dd) == Xor(Pick(a, 8, 0x3d4233dd), Pick(b, 8, 0x3d4233dd))
    ensures Pick(Xor(a, b), 16, 0x2a1462b3) == Xor(Pick(a, 16, 0x2a1462b3), Pick(b, 16, 0x2a1462b3))
  {
    hide Pick, Xor;
    BitsXor(a, b);
    PickXor(a, b, 1, 0x3b6a57b2);
    PickXor(a, b, 2, 0x26508e6d);
    PickXor(a, b, 4, 0x1ea119fa);
    PickXor(a, b, 8, 0x3d4233dd);
    PickXor(a, b, 16, 0x2a1462b3);
  }

  lemma ShiftsXor(c: Word, d: Word)
    ensures Shifted(Xor(c, d)) == Xor(Shifted(c), Shifted(d))
    ensures Lead(Xor(c, d)) == Xor(Lead(c), Lead(d))
  {
  }

  /** The step is linear over exclusive or. */
  lemma StepLinear(c: Word, d: Word, v: Word, w: Word)
    ensures Step(Xor(c, d), Xor(v, w)) == Xor(Step(c, v), Step(d, w))
  {
    hide Xor, Shifted, Lead, Feedback;
    ShiftsXor(c, d);
    FeedbackXor(Lead(c), Lead(d));
    Medial(Shifted(c), Shifted(d), v, w);
    Medial(Xor(Shifted(c), v), Xor(Shifted(d), w), Feedback(Lead(c)), Feedback(Lead(d)));
  }

  lemma StepRange(c: Word, v: Word)
    requires IsSym(v)
    ensures Step(c, v) < TOP
  {
  }

  /** A non-zero register stays non-zero when fed a zero: the step is injective. */
  lemma StepNonzero(c: Word)
    requires c < TOP && c != 0
    ensures Step(c, 0) != 0
  {
  }

  /** While the leading coefficient is zero the step only shifts. */
  lemma StepSmall(c: Word, v: Word)
    requires c < 0x200_0000
    ensures Step(c, v) == (c << 5) ^ v
  {
  }

  lemma PickIs(c0: Word, bit: Word, k: Word)
    ensures Pick(c0, bit, k) == if c0 & bit != 0 then k else 0
  {
  }

  lemma FeedbackIs(c0: Word, p: Word, q: Word, r: Word, s: Word, t: Word)
    requires p == if c0 & 1 != 0 then 0x3b6a57b2 else 0
    requires q == if c0 & 2 != 0 then 0x26508e6d else 0
    requires r == if c0 & 4 != 0 then 0x1ea119fa else 0
    requires s == if c0 & 8 != 0 then 0x3d4233dd else 0
    requires t == if c0 & 16 != 0 then 0x2a1462b3 else 0
    ensures Feedback(c0) == Xor(Xor(Xor(Xor(p, q), r), s), t)
  {
    hide Pick, Xor;
    PickIs(c0, 1, 0x3b6a57b2);
    PickIs(c0, 2, 0x26508e6d);
    PickIs(c0, 4, 0x1ea119fa);
    PickIs(c0, 8, 0x3d4233dd);
    PickIs(c0, 16, 0x2a1462b3);
  }

  lemma XorIs(a: Word, b: Word, c: Word)
    requires a ^ b == c
    ensures Xor(a, b) == c
  {
  }

  /** The step of known words, from their parts. */
  lemma StepIs(c: Word, v: Word, lead: Word, low: Word, sum: Word, r: Word)
    requires lead == Lead(c) && low == Shifted(c) && sum == Xor(low, v) && r == Xor(sum, Feedback(lead))
    ensures Step(c, v) == r
  {
    hide Xor, Feedback, Lead, Shifted;
  }

  lemma FeedbackOne()
    ensures Feedback(0) == 0 && Feedback(1) == 0x3b6a57b2
  {
    hide Feedback, Xor;
    FeedbackIs(0, 0, 0, 0, 0, 0);
    FeedbackIs(1, 0x3b6a57b2, 0, 0, 0, 0);
    XorZero(0);
    XorZero(0x3b6a57b2);
  }

  lemma FeedbackMore()
    ensures Feedback(18) == 0xc44ecde && Feedback(21) == 0xfdf2cfb && Feedback(30) == 0x2fa7c6f9
  {
    hide Feedback, Xor;
    FeedbackIs(18, 0, 0x26508e6d, 0, 0, 0x2a1462b3);
    XorIs(0, 0x26508e6d, 0x26508e6d);
    XorIs(0x26508e6d, 0, 0x26508e6d);
    XorIs(0x26508e6d, 0, 0x26508e6d);
    XorIs(0x26508e6d, 0x2a1462b3, 0xc44ecde);
    FeedbackIs(21, 0x3b6a57b2, 0, 0x1ea119fa, 0, 0x2a1462b3);
    XorIs(0x3b6a57b2, 0, 0x3b6a57b2);
    XorIs(0x3b6a57b2, 0x1ea119fa, 0x25cb4e48);
    XorIs(0x25cb4e48, 0, 0x25cb4e48);
    XorIs(0x25cb4e48, 0x2a1462b3, 0xfdf2cfb);
    FeedbackIs(30, 0, 0x26508e6d, 0x1ea119fa, 0x3d4233dd, 0x2a1462b3);
    XorIs(0, 0x26508e6d, 0x26508e6d);
    XorIs(0x26508e6d, 0x1ea119fa, 0x38f19797);
    XorIs(0x38f19797, 0x3d4233dd, 0x5b3a44a);
    XorIs(0x5b3a44a, 0x2a1462b3, 0x2fa7c6f9);
  }
}
