/**
 What a published binary-outcome proof tells about its outcome.  The proof is meant to hide
 it; it does so only if the second generator is a power of the first and the responses are
 reduced modulo `q`, and neither holds for the constants and the code.
 */
module OutcomeHiding {
  import opened ModArith
  import opened QuadraticResidues
  import opened OutcomeProof

  /* ---------- the commitment ---------- */

  /** The `q`-th power of a commitment forgets its randomness. */
  lemma CommitmentPower(grp: GroupParams, outcome: nat, r: nat)
    requires outcome <= 1
    ensures Cong(Pow(Commitment(grp, outcome, r), grp.q), Pow(Pow(grp.h, grp.q), outcome), grp.p)
  {
    var p, q := grp.p, grp.q;
    CommitmentCong(grp, outcome, r);
    PowCong(Commitment(grp, outcome, r), Pow(grp.g, r) * Pow(grp.h, outcome), q, p);
    PowProduct(Pow(grp.g, r), Pow(grp.h, outcome), q);
    SwapExponents(grp.g, r, q);
    SwapExponents(grp.h, outcome, q);
    PowCong(Pow(grp.g, q), 1, r, p);
    PowOne(r);
    CongScale(Pow(Pow(grp.g, q), r), 1, Pow(Pow(grp.h, q), outcome), p);
  }

  lemma CommitmentCong(grp: GroupParams, outcome: nat, r: nat)
    ensures Cong(Commitment(grp, outcome, r), Pow(grp.g, r) * Pow(grp.h, outcome), grp.p)
  {
    var gr, ho := PowMod(grp.g, r, grp.p), PowMod(grp.h, outcome, grp.p);
    ModCong(gr * ho, grp.p);
    PowModCong(grp.g, r, grp.p);
    PowModCong(grp.h, outcome, grp.p);
    CongMul(gr, Pow(grp.g, r), ho, Pow(grp.h, outcome), grp.p);
  }

  lemma SwapExponents(b: int, x: nat, y: nat)
    ensures Pow(Pow(b, x), y) == Pow(Pow(b, y), x)
  {
    PowPow(b, x, y);
    PowPow(b, y, x);
    assert x * y == y * x;
  }

  /** If the second generator has `q`-th power -1, the commitment alone reveals the outcome. */
  lemma CommitmentReveals(grp: GroupParams, outcome: nat, r: nat)
    requires outcome <= 1 && grp.p > 2 && Cong(Pow(grp.h, grp.q), -1, grp.p)
    ensures Cong(Pow(Commitment(grp, outcome, r), grp.q), if outcome == 0 then 1 else -1, grp.p)
    ensures outcome == 0 <==> Cong(Pow(Commitment(grp, outcome, r), grp.q), 1, grp.p)
  {
    CommitmentPower(grp, outcome, r);
    assert Pow(Pow(grp.h, grp.q), outcome) == if outcome == 0 then 1 else Pow(grp.h, grp.q);
    if Cong(-1, 1, grp.p) {
      CongMinus(1, -1, 2, grp.p);
      SmallResidues(2, grp.p);
    }
  }

  /** Raising the exponent of `g` by `x` is multiplying by `h`. */
  lemma ShiftExponent(grp: GroupParams, x: nat, e: nat, f: nat)
    requires Cong(Pow(grp.g, x), grp.h, grp.p) && Cong(e + x, f, grp.q)
    ensures Commitment(grp, 1, e) == Commitment(grp, 0, f)
  {
    PowAdd(grp.g, e, x);
    PowSameExponent(grp.g, e + x, f, grp.q, grp.p);
    CongMul(Pow(grp.g, e), Pow(grp.g, e), Pow(grp.g, x), grp.h, grp.p);
    assert Pow(grp.h, 1) == grp.h && Pow(grp.h, 0) == 1;
    CommitmentCong(grp, 1, e);
    CommitmentCong(grp, 0, f);
    SmallResidue(Commitment(grp, 1, e), grp.p);
    SmallResidue(Commitment(grp, 0, f), grp.p);
  }

  /** The commitment to `outcome` under `r` is the one to the other outcome under `r'`. */
  ghost predicate OpensBothWays(grp: GroupParams, outcome: nat, r: nat, r': nat)
    requires outcome <= 1
  {
    Commitment(grp, 1 - outcome, r') == Commitment(grp, outcome, r)
  }

  /** A commitment to one outcome opened to the other, when `h` is `g^x`. */
  lemma OtherOpening(grp: GroupParams, x: nat, outcome: nat, r: nat) returns (r': nat)
    requires outcome <= 1 && Cong(Pow(grp.g, x), grp.h, grp.p)
    ensures r' < grp.q && OpensBothWays(grp, outcome, r, r')
  {
    var q := grp.q;
    if outcome == 0 {
      r' := (r - x) % q;
      ModCong(r - x, q);
      CongAdd(r', r - x, x, x, q);
      ShiftExponent(grp, x, r', r);
    } else {
      r' := (r + x) % q;
      ModCong(r + x, q);
      ShiftExponent(grp, x, r, r');
    }
  }

  ghost predicate GeneratesH(grp: GroupParams) {
    exists x: nat :: Cong(Pow(grp.g, x), grp.h, grp.p)
  }

  /** The commitment to `outcome` under `r` can also be opened to the other outcome. */
  ghost predicate Ambiguous(grp: GroupParams, outcome: nat, r: nat)
    requires outcome <= 1
  {
    exists r': nat :: OpensBothWays(grp, outcome, r, r')
  }

  lemma AmbiguousIfGenerated(grp: GroupParams, outcome: nat, r: nat)
    requires outcome <= 1 && GeneratesH(grp)
    ensures Ambiguous(grp, outcome, r)
  {
    var x: nat :| Cong(Pow(grp.g, x), grp.h, grp.p);
    var r' := OtherOpening(grp, x, outcome, r);
  }

  /** The exact condition for hiding: a commitment, whatever its outcome and randomness, can be
      opened both ways if and only if `h` is a power of `g`. */
  lemma HidingIff(grp: GroupParams, outcome: nat, r: nat)
    requires outcome <= 1
    ensures Ambiguous(grp, outcome, r) <==> GeneratesH(grp)
  {
    if GeneratesH(grp) {
      AmbiguousIfGenerated(grp, outcome, r);
    }
    if Ambiguous(grp, outcome, r) {
      var r': nat :| OpensBothWays(grp, outcome, r, r');
      if outcome == 0 {
        DoubleOpening(grp, r, r');
      } else {
        DoubleOpening(grp, r', r);
      }
    }
  }

  /** Two openings of one commitment give `h` as a power of `g`. */
  lemma DoubleOpening(grp: GroupParams, r: nat, r': nat)
    requires OpensBothWays(grp, 0, r, r')
    ensures GeneratesH(grp)
  {
    var p, q := grp.p, grp.q;
    CommitmentCong(grp, 0, r);
    CommitmentCong(grp, 1, r');
    assert Pow(grp.h, 1) == grp.h && Pow(grp.h, 0) == 1;
    var x: nat := (r - r') % q;
    PowDifference(grp.g, r, r', x, q, p);
    assert grp.h * Pow(grp.g, r') == Pow(grp.g, r') * grp.h;
    UnitPow(grp.g, r', p);
    CancelUnit(Pow(grp.g, x), grp.h, Pow(grp.g, r'), p);
  }

  /* ---------- the literal constants ---------- */

  /** The literal of the source, six rows of hexadecimal digits. */
  const ROW := 0x1_000000000000000000000000000000000000000000000000

  const MODULUS :=
    ((((0xFFFFFFFFFFFFFFFFC90FDAA22168C234C4C6628B80DC1CD1 * ROW
        + 0x29024E088A67CC74020BBEA63B139B22514A08798E3404DD) * ROW
       + 0xEF9519B3CD3A431B302B0A6DF25F14374FE1356D6D51C245) * ROW
      + 0xE485B576625E7EC6F44C42E9A637ED6B0BFF5CB6F406B7ED) * ROW
     + 0xEE386BFB5A899FA5AE9F24117C4B1FE649286651ECE65381) * 0x1_0000000000000000
    + 0xFFFFFFFFFFFFFFFF

  const LITERAL_GROUP := Group(MODULUS, (MODULUS - 1) / 2, 2, 5)

  lemma ModulusResidues()
    ensures MODULUS % 8 == 7 && MODULUS % 5 == 2 && MODULUS == 2 * ((MODULUS - 1) / 2) + 1 && MODULUS > 5
  {
  }

  /** A prime that is 7 modulo 8 and 2 or 3 modulo 5 gives a group with generators 2 and 5 in
      which 5 is not a power of 2. */
  lemma GeneratorsTwoAndFive(p: int, q: int)
    requires Prime(p) && p == 2 * q + 1 && p > 5 && p % 8 == 7 && (p % 5 == 2 || p % 5 == 3)
    ensures ValidGroup(Group(p, q, 2, 5)) && Cong(Pow(5, q), -1, p)
    ensures !GeneratesH(Group(p, q, 2, 5))
  {
    TwoToTheQ(q);
    FiveToTheQ(q);
    var grp: GroupParams := Group(p, q, 2, 5);
    HidingIff(grp, 0, 0);
    if Ambiguous(grp, 0, 0) {
      var r': nat :| OpensBothWays(grp, 0, 0, r');
      CommitmentReveals(grp, 0, 0);
      CommitmentReveals(grp, 1, r');
    }
  }

  /** The constants of the source, whose modulus is taken to be prime: they form a group, but no
      commitment to one outcome is one to the other, and its `q`-th power says which it is. */
  lemma LiteralCommitmentsReveal(outcome: nat, r: nat)
    requires outcome <= 1
    ensures Prime(MODULUS) ==>
              && ValidGroup(LITERAL_GROUP) && !GeneratesH(LITERAL_GROUP)
              && (outcome == 0 <==> Cong(Pow(Commitment(LITERAL_GROUP, outcome, r), LITERAL_GROUP.q), 1, MODULUS))
  {
    if Prime(MODULUS) {
      ModulusResidues();
      GeneratorsTwoAndFive(MODULUS, (MODULUS - 1) / 2);
      CommitmentReveals(LITERAL_GROUP, outcome, r);
    }
  }

  /* ---------- the responses ---------- */

  /** The response of the branch of the outcome is not reduced, the other one is drawn below `q`:
      a response of `q` or more marks the branch of the outcome. */
  lemma ResponseReveals(grp: GroupParams, challenge: Challenge, taskId: string, outcome: nat, r: nat, draws: Draws)
    requires outcome <= 1 && DrawnBelow(draws, grp.q)
    ensures var t := BuildTranscript(grp, challenge, taskId, outcome, r, draws);
      && Response(t, 1 - outcome) < grp.q
      && (t.s0 >= grp.q ==> outcome == 0) && (t.s1 >= grp.q ==> outcome == 1)
  {
  }

  /** The transcript with the responses that verification looks at. */
  function Reduced(t: Transcript, q: int): Transcript
    requires q > 0
  {
    t.(s0 := t.s0 % q, s1 := t.s1 % q)
  }

  /** Verification does not tell a transcript from its reduced form. */
  lemma ReducedAccepted(grp: GroupParams, challenge: int, t: Transcript)
    ensures AcceptsTranscript(grp, challenge, Reduced(t, grp.q)) <==> AcceptsTranscript(grp, challenge, t)
  {
    SmallResidue(t.s0 % grp.q, grp.q);
    SmallResidue(t.s1 % grp.q, grp.q);
  }

  /** A simulated announcement is an honest one when the response fits. */
  lemma SimulatedIsHonest(grp: GroupParams, y: int, r: nat, nonce: nat, c: nat, s: nat)
    requires Unit(y, grp.p) && Cong(y, Pow(grp.g, r), grp.p) && Cong(s, HonestResponse(nonce, c, r), grp.q)
    ensures SimulatedAnnouncement(grp, y, c, s) == PowMod(grp.g, nonce, grp.p)
  {
    var p, q := grp.p, grp.q;
    var simulated, honest := SimulatedAnnouncement(grp, y, c, s), PowMod(grp.g, nonce, p);
    FalseBranchAccepts(grp, y, c, s);
    BranchCong(grp, simulated, y, c, s);
    TrueBranchAccepts(grp, y, r, nonce, c);
    BranchCong(grp, honest, y, c, HonestResponse(nonce, c, r) % q);
    SmallResidue(HonestResponse(nonce, c, r) % q, q);
    PowSameExponent(grp.g, s, HonestResponse(nonce, c, r) % q, q, p);
    UnitPow(y, c, p);
    CancelUnit(simulated, honest, Pow(y, c), p);
    SmallResidue(simulated, p);
    SmallResidue(honest, p);
  }

  lemma ShareBack(challenge: int, c: int, q: int)
    requires q > 0 && 0 <= challenge < q && 0 <= c < q
    ensures (challenge - (challenge - c) % q) % q == c
  {
    ModCong(challenge - c, q);
    CongNegate((challenge - c) % q, challenge - c, q);
    CongAdd(challenge, challenge, -((challenge - c) % q), -(challenge - c), q);
    SmallResidue(c, q);
  }

  /** The draws with which the other opening of the commitment gives the same numbers. */
  function SwitchedDraws(grp: GroupParams, t: Transcript, outcome: nat, r': nat): (draws: Draws)
    requires grp.q > 0 && outcome <= 1
    ensures DrawnBelow(draws, grp.q)
  {
    Draws(Share(t, outcome) % grp.q, Response(t, outcome) % grp.q,
          (Response(t, 1 - outcome) - Share(t, 1 - outcome) * r') % grp.q)
  }

  /** Both announcements are the same for the other opening with the switched draws. */
  lemma SwitchedAnnouncements(grp: GroupParams, challenge: Challenge, taskId: string, outcome: nat, r: nat, r': nat,
                              draws: Draws)
    requires outcome <= 1 && DrawnBelow(draws, grp.q)
    requires OpensBothWays(grp, outcome, r, r')
    ensures var t := BuildTranscript(grp, challenge, taskId, outcome, r, draws);
      var switched := SwitchedDraws(grp, t, outcome, r');
      var y, y' := BranchValue(grp, t.commitment, outcome), BranchValue(grp, t.commitment, 1 - outcome);
      && Unit(y, grp.p) && Unit(y', grp.p)
      && SimulatedAnnouncement(grp, y, switched.cFalse, switched.sFalse) == PowMod(grp.g, draws.trueNonce, grp.p)
      && SimulatedAnnouncement(grp, y', draws.cFalse, draws.sFalse) == PowMod(grp.g, switched.trueNonce, grp.p)
      && Cong(draws.sFalse, HonestResponse(switched.trueNonce, draws.cFalse, r'), grp.q)
  {
    var q := grp.q;
    var t := BuildTranscript(grp, challenge, taskId, outcome, r, draws);
    var switched := SwitchedDraws(grp, t, outcome, r');
    CreatedUnits(grp, outcome, r);
    CreatedUnits(grp, 1 - outcome, r');
    TrueBranchValue(grp, outcome, r);
    TrueBranchValue(grp, 1 - outcome, r');
    SmallResidue(Share(t, outcome), q);
    ModCong(Response(t, outcome), q);
    SimulatedIsHonest(grp, BranchValue(grp, t.commitment, outcome), r, draws.trueNonce, switched.cFalse,
        switched.sFalse);
    ModCong(draws.sFalse - draws.cFalse * r', q);
    CongAdd(switched.trueNonce, draws.sFalse - draws.cFalse * r', draws.cFalse * r', draws.cFalse * r', q);
    SimulatedIsHonest(grp, BranchValue(grp, t.commitment, 1 - outcome), r', switched.trueNonce, draws.cFalse,
        draws.sFalse);
  }

  /** With reduced responses the proof hides: for every second opening of the commitment there are
      draws with which the prover of the other outcome publishes the same numbers. */
  lemma ReducedHides(grp: GroupParams, challenge: Challenge, taskId: string, outcome: nat, r: nat, r': nat,
                     draws: Draws)
    returns (draws': Draws)
    requires outcome <= 1 && DrawnBelow(draws, grp.q)
    requires OpensBothWays(grp, outcome, r, r')
    ensures DrawnBelow(draws', grp.q)
    ensures Reduced(BuildTranscript(grp, challenge, taskId, 1 - outcome, r', draws'), grp.q)
         == Reduced(BuildTranscript(grp, challenge, taskId, outcome, r, draws), grp.q)
  {
    var q := grp.q;
    var t := BuildTranscript(grp, challenge, taskId, outcome, r, draws);
    draws' := SwitchedDraws(grp, t, outcome, r');
    SwitchedAnnouncements(grp, challenge, taskId, outcome, r, r', draws);
    SmallResidue(Share(t, outcome), q);
    ShareBack(challenge(taskId, t.commitment, t.a0, t.a1) % q, draws.cFalse, q);
    SmallResidue(Response(t, outcome) % q, q);
  }

  /** As published, a transcript of one outcome arises from a given opening to the other if and
      only if its honest response is below `q` and its simulated one leaves a nonce. */
  lemma ArisesFromBothIff(grp: GroupParams, challenge: Challenge, taskId: string, outcome: nat, r: nat, r': nat,
                          draws: Draws)
    requires outcome <= 1 && DrawnBelow(draws, grp.q)
    requires OpensBothWays(grp, outcome, r, r')
    ensures var t := BuildTranscript(grp, challenge, taskId, outcome, r, draws);
      (exists draws' :: DrawnBelow(draws', grp.q)
          && BuildTranscript(grp, challenge, taskId, 1 - outcome, r', draws') == t)
      <==> Response(t, outcome) < grp.q && draws.cFalse * r' <= draws.sFalse
  {
    var q := grp.q;
    var t := BuildTranscript(grp, challenge, taskId, outcome, r, draws);
    if draws' :| DrawnBelow(draws', q) && BuildTranscript(grp, challenge, taskId, 1 - outcome, r', draws') == t {
      assert Response(t, 1 - outcome) == HonestResponse(draws'.trueNonce, Share(t, 1 - outcome), r');
    }
    if Response(t, outcome) < q && draws.cFalse * r' <= draws.sFalse {
      var draws' := SwitchedDraws(grp, t, outcome, r');
      SwitchedAnnouncements(grp, challenge, taskId, outcome, r, r', draws);
      SmallResidue(Share(t, outcome), q);
      SmallResidue(Response(t, outcome), q);
      MulNonnegative(draws.cFalse, r');
      SmallResidue(draws.sFalse - draws.cFalse * r', q);
      ShareBack(challenge(taskId, t.commitment, t.a0, t.a1) % q, draws.cFalse, q);
      assert BuildTranscript(grp, challenge, taskId, 1 - outcome, r', draws') == t;
    }
  }

  lemma MulNonnegative(a: nat, b: nat)
    ensures a * b >= 0
  {
  }

  /* ---------- a small instance ---------- */

  lemma TwentyThree()
    ensures Prime(23) && 23 % 8 == 7 && 23 % 5 == 3
  {
  }

  /** With a challenge of 1 and a simulated share of 0 the honest response is the nonce and the exponent. */
  lemma ResponseToOne(grp: GroupParams, challenge: Challenge, taskId: string, r: nat, draws: Draws)
    requires grp.q > 1 && DrawnBelow(draws, grp.q) && draws.cFalse == 0
    requires forall id, c, a0, a1 :: challenge(id, c, a0, a1) == 1
    ensures BuildTranscript(grp, challenge, taskId, 0, r, draws).s0 == draws.trueNonce + r
  {
    SmallResidue(1, grp.q);
  }

  /** A published proof whose response is not below `q`: modulo 23, with a challenge of 1. */
  lemma ResponseCanReveal()
    ensures ValidGroup(Group(23, 11, 2, 5))
    ensures var challenge: Challenge := (_, _, _, _) => 1;
      BuildTranscript(Group(23, 11, 2, 5), challenge, "", 0, 10, Draws(0, 0, 5)).s0 == 15
  {
    TwentyThree();
    GeneratorsTwoAndFive(23, 11);
    var grp: GroupParams, draws := Group(23, 11, 2, 5), Draws(0, 0, 5);
    var challenge: Challenge := (_, _, _, _) => 1;
    ResponseToOne(grp, challenge, "", 10, draws);
  }
}
