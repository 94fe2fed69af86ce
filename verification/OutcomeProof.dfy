/**
 The binary-outcome proof: a Fiat-Shamir OR proof that a commitment g^r h^b was made to the
 outcome 0 or 1.  The group and the two hash functions are parameters.  What the commitment
 and the proof tell about the outcome is the subject of OutcomeHiding.
 */
module OutcomeProof {
  import opened Wrappers
  import opened ModArith
  import opened Decimal
  import opened QuadraticResidues

  /** Modulus `p`, exponent modulus `q`, and the two generators. */
  datatype Group = Group(p: int, q: int, g: int, h: int)

  /** What the constants of the group provide. */
  ghost predicate ValidGroup(grp: Group) {
    grp.p > 1 && grp.q > 0 && Unit(grp.g, grp.p) && Unit(grp.h, grp.p) && Cong(Pow(grp.g, grp.q), 1, grp.p)
  }

  type GroupParams = grp: Group | ValidGroup(grp) ghost witness TrivialGroup()

  ghost function TrivialGroup(): (grp: Group)
    ensures ValidGroup(grp)
  {
    assert Inverts(1, 1, 2);
    PowOne(1);
    Group(2, 1, 1, 1)
  }

  /** The challenge hash of a task id, a commitment and the two announcements. */
  type Challenge = (string, int, int, int) -> nat

  const SCHEME := "oan-binary-outcome-or-schnorr-v1"
  const MIN_NONCE_LENGTH := 32

  /** A proof as it is stored: field names to text. */
  type Proof = map<string, string>

  datatype CreateError = OutcomeNotBinary | NonceTooShort

  /** The commitment with the outcome `outcome` taken out. */
  ghost function BranchValue(grp: GroupParams, commitment: int, outcome: nat): (y: int)
    ensures 0 <= y < grp.p
  {
    commitment * PowMod(grp.h, -(outcome as int), grp.p) % grp.p
  }

  ghost function Commitment(grp: GroupParams, outcome: nat, r: nat): (commitment: nat)
    ensures commitment < grp.p
  {
    PowMod(grp.g, r, grp.p) * PowMod(grp.h, outcome, grp.p) % grp.p
  }

  /** The announcement made up for the branch that is not the outcome. */
  ghost function SimulatedAnnouncement(grp: GroupParams, y: int, c: nat, s: nat): (a: nat)
    requires Unit(y, grp.p)
    ensures a < grp.p
  {
    PowMod(grp.g, s, grp.p) * PowMod(y, -(c as int), grp.p) % grp.p
  }

  /** The response of the honest branch, which is not reduced modulo `q`. */
  function HonestResponse(nonce: nat, c: nat, r: nat): nat {
    nonce + c * r
  }

  /** The numbers of a proof: the commitment, and per branch announcement, share and response. */
  datatype Transcript = Transcript(commitment: nat, a0: nat, a1: nat, c0: nat, s0: nat, c1: nat, s1: nat)

  /** The prover's random draws, each below `q`. */
  datatype Draws = Draws(cFalse: nat, sFalse: nat, trueNonce: nat)

  predicate DrawnBelow(draws: Draws, q: int) {
    draws.cFalse < q && draws.sFalse < q && draws.trueNonce < q
  }

  ghost function BuildTranscript(grp: GroupParams, challenge: Challenge, taskId: string, outcome: nat, r: nat,
                                 draws: Draws): Transcript
    requires outcome <= 1 && DrawnBelow(draws, grp.q)
  {
    CreatedUnits(grp, outcome, r);
    var commitment := Commitment(grp, outcome, r);
    var aFalse := SimulatedAnnouncement(grp, BranchValue(grp, commitment, 1 - outcome), draws.cFalse, draws.sFalse);
    var aTrue := PowMod(grp.g, draws.trueNonce, grp.p);
    var a0, a1 := if outcome == 0 then aTrue else aFalse, if outcome == 0 then aFalse else aTrue;
    var cTrue := (challenge(taskId, commitment, a0, a1) % grp.q - draws.cFalse) % grp.q;
    var sTrue := HonestResponse(draws.trueNonce, cTrue, r);
    if outcome == 0 then Transcript(commitment, a0, a1, cTrue, sTrue, draws.cFalse, draws.sFalse)
    else Transcript(commitment, a0, a1, draws.cFalse, draws.sFalse, cTrue, sTrue)
  }

  function Encode(taskId: string, t: Transcript): Proof {
    map[
      "scheme" := SCHEME,
      "task_id" := taskId,
      "commitment" := ToDecimal(t.commitment),
      "a0" := ToDecimal(t.a0),
      "a1" := ToDecimal(t.a1),
      "c0" := ToDecimal(t.c0),
      "s0" := ToDecimal(t.s0),
      "c1" := ToDecimal(t.c1),
      "s1" := ToDecimal(t.s1)
    ]
  }

  ghost function CreateProof(grp: GroupParams, digest: string -> nat, challenge: Challenge, taskId: string,
                             outcome: int, nonce: string, draws: Draws): Result<Proof, CreateError>
    requires DrawnBelow(draws, grp.q)
  {
    if outcome != 0 && outcome != 1 then Err(OutcomeNotBinary)
    else if |nonce| < MIN_NONCE_LENGTH then Err(NonceTooShort)
    else Ok(Encode(taskId, BuildTranscript(grp, challenge, taskId, outcome, digest(nonce) % grp.q, draws)))
  }

  function Field(proof: Proof, name: string): Option<int> {
    if name in proof then ParseInt(proof[name]) else None
  }

  /** The check of one branch. */
  ghost predicate BranchAccepts(grp: GroupParams, a: int, y: int, c: nat, s: nat) {
    PowMod(grp.g, s, grp.p) == a * PowMod(y, c, grp.p) % grp.p
  }

  /** The arithmetic of verification for a given challenge value. */
  ghost predicate Accepts(grp: GroupParams, challenge: int, commitment: int, a0: int, a1: int, c0: int, s0: int,
                          c1: int, s1: int) {
    && 0 < commitment < grp.p && 0 < a0 < grp.p && 0 < a1 < grp.p
    && (c0 % grp.q + c1 % grp.q) % grp.q == challenge
    && BranchAccepts(grp, a0, BranchValue(grp, commitment, 0), c0 % grp.q, s0 % grp.q)
    && BranchAccepts(grp, a1, BranchValue(grp, commitment, 1), c1 % grp.q, s1 % grp.q)
  }

  ghost predicate VerifyProof(grp: GroupParams, challenge: Challenge, proof: Proof) {
    && "scheme" in proof && proof["scheme"] == SCHEME
    && "task_id" in proof
    && Field(proof, "commitment").Some? && Field(proof, "a0").Some? && Field(proof, "a1").Some?
    && Field(proof, "c0").Some? && Field(proof, "c1").Some? && Field(proof, "s0").Some? && Field(proof, "s1").Some?
    && var commitment, a0, a1 := Field(proof, "commitment").value, Field(proof, "a0").value, Field(proof, "a1").value;
       Accepts(grp, challenge(proof["task_id"], commitment, a0, a1) % grp.q, commitment, a0, a1,
               Field(proof, "c0").value, Field(proof, "s0").value, Field(proof, "c1").value, Field(proof, "s1").value)
  }

  /* ---------- completeness ---------- */

  lemma CreatedUnits(grp: GroupParams, outcome: nat, r: nat)
    requires outcome <= 1
    ensures Unit(Commitment(grp, outcome, r), grp.p)
    ensures Unit(BranchValue(grp, Commitment(grp, outcome, r), 1 - outcome), grp.p)
  {
    ProductOfPowersUnit(grp.g, r, grp.h, outcome, grp.p);
    BranchValueUnit(grp, Commitment(grp, outcome, r), 1 - outcome);
  }

  lemma ProductOfPowersUnit(a: int, e: int, b: int, f: int, p: int)
    requires p > 0 && Unit(a, p) && Unit(b, p)
    ensures Unit(PowMod(a, e, p) * PowMod(b, f, p) % p, p)
  {
    var product := PowMod(a, e, p) * PowMod(b, f, p);
    UnitPowMod(a, e, p);
    UnitPowMod(b, f, p);
    UnitMul(PowMod(a, e, p), PowMod(b, f, p), p);
    ModCong(product, p);
    UnitCong(product, product % p, p);
  }

  lemma BranchValueUnit(grp: GroupParams, commitment: int, outcome: nat)
    requires Unit(commitment, grp.p)
    ensures Unit(BranchValue(grp, commitment, outcome), grp.p)
  {
    var hi := PowMod(grp.h, -(outcome as int), grp.p);
    UnitPowMod(grp.h, -(outcome as int), grp.p);
    UnitMul(commitment, hi, grp.p);
    ModCong(commitment * hi, grp.p);
    UnitCong(commitment * hi, BranchValue(grp, commitment, outcome), grp.p);
  }

  /** Removing the committed outcome leaves a power of g. */
  lemma TrueBranchValue(grp: GroupParams, outcome: nat, r: nat)
    requires outcome <= 1
    ensures Cong(BranchValue(grp, Commitment(grp, outcome, r), outcome), Pow(grp.g, r), grp.p)
  {
    var p := grp.p;
    var gr, ho, hi := PowMod(grp.g, r, p), PowMod(grp.h, outcome, p), PowMod(grp.h, -(outcome as int), p);
    var commitment := Commitment(grp, outcome, r);
    ModCong(commitment * hi, p);
    ModCong(gr * ho, p);
    CongMul(commitment, gr * ho, hi, hi, p);
    PowModNegate(grp.h, outcome, p);
    UndoFactor(gr, ho, hi, p);
    PowModCong(grp.g, r, p);
  }

  /** Multiplying by a number and by its inverse changes nothing. */
  lemma UndoFactor(x: int, u: int, v: int, p: int)
    requires p > 0 && Cong(v * u, 1, p)
    ensures Cong(x * u * v, x, p)
  {
    CongMul(x, x, v * u, 1, p);
    assert x * u * v == x * (v * u);
  }

  /** The simulated branch verifies by construction of its announcement. */
  lemma FalseBranchAccepts(grp: GroupParams, y: int, c: nat, s: nat)
    requires Unit(y, grp.p)
    ensures BranchAccepts(grp, SimulatedAnnouncement(grp, y, c, s), y, c, s)
  {
    var gs, yi, yc := PowMod(grp.g, s, grp.p), PowMod(y, -(c as int), grp.p), PowMod(y, c, grp.p);
    assert Cong(yc * yi, 1, grp.p) by {
      PowModNegate(y, c, grp.p);
      assert yc * yi == yi * yc;
    }
    ModCong(gs * yi, grp.p);
    SimulatedCheck(gs, yi, yc, SimulatedAnnouncement(grp, y, c, s), grp.p);
    SmallResidue(gs, grp.p);
  }

  lemma SimulatedCheck(gs: int, yi: int, yc: int, a: int, p: int)
    requires p > 0 && Cong(a, gs * yi, p) && Cong(yc * yi, 1, p)
    ensures Cong(a * yc, gs, p)
  {
    CongMul(a, gs * yi, yc, yc, p);
    UndoFactor(gs, yi, yc, p);
  }

  lemma SmallResidue(a: int, p: int)
    requires 0 <= a < p
    ensures a % p == a
  {
  }

  /** The honest branch verifies although its response is sent unreduced. */
  lemma TrueBranchAccepts(grp: GroupParams, y: int, r: nat, nonce: nat, c: nat)
    requires Cong(y, Pow(grp.g, r), grp.p)
    ensures BranchAccepts(grp, PowMod(grp.g, nonce, grp.p), y, c, HonestResponse(nonce, c, r) % grp.q)
  {
    var p := grp.p;
    var s: nat := nonce + r * c;
    assert c * r == r * c;
    PowPeriodic(grp.g, s, grp.q, p);
    PowModCong(grp.g, s % grp.q, p);
    PowAdd(grp.g, nonce, r * c);
    PowPow(grp.g, r, c);
    PowCong(y, Pow(grp.g, r), c, p);
    PowModCong(y, c, p);
    PowModCong(grp.g, nonce, p);
    CongMul(PowMod(grp.g, nonce, p), Pow(grp.g, nonce), PowMod(y, c, p), Pow(grp.g, r * c), p);
  }

  lemma ChallengeSplit(challenge: int, cFalse: int, q: int)
    requires q > 0 && 0 <= challenge < q && 0 <= cFalse < q
    ensures ((challenge - cFalse) % q + cFalse) % q == challenge
    ensures (cFalse + (challenge - cFalse) % q) % q == challenge
  {
    var d := (challenge - cFalse) % q;
    ModCong(challenge - cFalse, q);
    CongAdd(d, challenge - cFalse, cFalse, cFalse, q);
    assert challenge - cFalse + cFalse == challenge;
    SmallResidue(challenge, q);
    assert (d + cFalse) % q == challenge;
    assert cFalse + d == d + cFalse;
  }

  lemma UnitResiduePositive(a: int, p: int)
    requires p > 1 && 0 <= a < p && Unit(a, p)
    ensures 0 < a
  {
    UnitNonzero(a, p);
  }

  lemma BelowModulus(c: nat, draws: Draws, q: int)
    requires c < q && DrawnBelow(draws, q)
    ensures c % q == c && draws.cFalse % q == draws.cFalse && draws.sFalse % q == draws.sFalse
  {
    SmallResidue(c, q);
    SmallResidue(draws.cFalse, q);
    SmallResidue(draws.sFalse, q);
  }

  /** Every transcript that the prover builds is accepted for the hashed challenge. */
  lemma TranscriptAccepted(grp: GroupParams, challenge: Challenge, taskId: string, outcome: nat, r: nat, draws: Draws)
    requires outcome <= 1 && DrawnBelow(draws, grp.q)
    ensures var t := BuildTranscript(grp, challenge, taskId, outcome, r, draws);
      Accepts(grp, challenge(taskId, t.commitment, t.a0, t.a1) % grp.q, t.commitment, t.a0, t.a1, t.c0, t.s0, t.c1,
          t.s1)
  {
    var p, q := grp.p, grp.q;
    var t := BuildTranscript(grp, challenge, taskId, outcome, r, draws);
    var yTrue, yFalse := BranchValue(grp, t.commitment, outcome), BranchValue(grp, t.commitment, 1 - outcome);
    assert Unit(t.commitment, p) && Unit(yFalse, p) by {
      CreatedUnits(grp, outcome, r);
    }
    UnitResiduePositive(t.commitment, p);
    assert 0 < PowMod(grp.g, draws.trueNonce, p) by {
      UnitPowMod(grp.g, draws.trueNonce, p);
      UnitResiduePositive(PowMod(grp.g, draws.trueNonce, p), p);
    }
    assert 0 < SimulatedAnnouncement(grp, yFalse, draws.cFalse, draws.sFalse) by {
      ProductOfPowersUnit(grp.g, draws.sFalse, yFalse, -(draws.cFalse as int), p);
      UnitResiduePositive(SimulatedAnnouncement(grp, yFalse, draws.cFalse, draws.sFalse), p);
    }
    var cTrue := if outcome == 0 then t.c0 else t.c1;
    assert BranchAccepts(grp, PowMod(grp.g, draws.trueNonce, p), yTrue, cTrue,
        HonestResponse(draws.trueNonce, cTrue, r) % q) by {
      TrueBranchValue(grp, outcome, r);
      TrueBranchAccepts(grp, yTrue, r, draws.trueNonce, cTrue);
    }
    FalseBranchAccepts(grp, yFalse, draws.cFalse, draws.sFalse);
    ChallengeSplit(challenge(taskId, t.commitment, t.a0, t.a1) % q, draws.cFalse, q);
    BelowModulus(cTrue, draws, q);
  }

  lemma EncodedFields(taskId: string, t: Transcript)
    ensures var proof := Encode(taskId, t);
      && Field(proof, "commitment") == Some(t.commitment)
      && Field(proof, "a0") == Some(t.a0) && Field(proof, "a1") == Some(t.a1)
      && Field(proof, "c0") == Some(t.c0) && Field(proof, "s0") == Some(t.s0)
      && Field(proof, "c1") == Some(t.c1) && Field(proof, "s1") == Some(t.s1)
      && proof["scheme"] == SCHEME && proof["task_id"] == taskId
  {
    ParsePrinted(t.commitment);
    ParsePrinted(t.a0);
    ParsePrinted(t.a1);
    ParsePrinted(t.c0);
    ParsePrinted(t.s0);
    ParsePrinted(t.c1);
    ParsePrinted(t.s1);
  }

  /** Completeness: whatever is created verifies, for every task id, nonce and random draws;
      creation fails exactly on a non-binary outcome or a short nonce. */
  lemma Completeness(grp: GroupParams, digest: string -> nat, challenge: Challenge, taskId: string, outcome: int,
                     nonce: string, draws: Draws)
    requires DrawnBelow(draws, grp.q)
    ensures var created := CreateProof(grp, digest, challenge, taskId, outcome, nonce, draws);
      && (created == Err(OutcomeNotBinary) <==> !(0 <= outcome <= 1))
      && (created == Err(NonceTooShort) <==> 0 <= outcome <= 1 && |nonce| < 32)
      && (created.Ok? <==> 0 <= outcome <= 1 && |nonce| >= 32)
      && (created.Ok? ==> VerifyProof(grp, challenge, created.value))
  {
    if (outcome == 0 || outcome == 1) && |nonce| >= MIN_NONCE_LENGTH {
      var r := digest(nonce) % grp.q;
      TranscriptAccepted(grp, challenge, taskId, outcome, r, draws);
      EncodedFields(taskId, BuildTranscript(grp, challenge, taskId, outcome, r, draws));
    }
  }

  /** A proof that lacks a field, or holds a field that is no integer, is rejected. */
  lemma MalformedRejected(grp: GroupParams, challenge: Challenge, proof: Proof, name: string)
    requires name in {"commitment", "a0", "a1", "c0", "s0", "c1", "s1"}
    requires name !in proof || ParseInt(proof[name]).None?
    ensures !VerifyProof(grp, challenge, proof)
  {
    assert Field(proof, name).None?;
  }

  /* ---------- special soundness ---------- */

  /** What one branch of two accepted transcripts with a common announcement says. */
  lemma BranchRelation(grp: GroupParams, a: int, y: int, c: nat, s: nat, c': nat, s': nat)
    requires BranchAccepts(grp, a, y, c, s) && BranchAccepts(grp, a, y, c', s')
    ensures Cong(Pow(grp.g, s) * Pow(y, c'), Pow(grp.g, s') * Pow(y, c), grp.p)
  {
    BranchCong(grp, a, y, c, s);
    BranchCong(grp, a, y, c', s');
    CrossMultiply(a, Pow(grp.g, s), Pow(y, c), Pow(grp.g, s'), Pow(y, c'), grp.p);
  }

  lemma CrossMultiply(a: int, x: int, u: int, x': int, u': int, p: int)
    requires p > 0 && Cong(x, a * u, p) && Cong(x', a * u', p)
    ensures Cong(x * u', x' * u, p)
  {
    CongScale(x, a * u, u', p);
    CongScale(x', a * u', u, p);
    assert a * u * u' == a * u' * u;
  }

  lemma BranchCong(grp: GroupParams, a: int, y: int, c: nat, s: nat)
    requires BranchAccepts(grp, a, y, c, s)
    ensures Cong(Pow(grp.g, s), a * Pow(y, c), grp.p)
  {
    PowModCong(grp.g, s, grp.p);
    PowModCong(y, c, grp.p);
    CongMul(a, a, PowMod(y, c, grp.p), Pow(y, c), grp.p);
    ModCong(a * PowMod(y, c, grp.p), grp.p);
  }

  predicate PlusMinusOne(sign: int) {
    sign == 1 || sign == -1
  }

  /** An element whose `q`-th power is one up to sign is a unit. */
  lemma RootOfSignIsUnit(y: int, q: int, sign: int, p: int)
    requires p > 0 && q > 0 && PlusMinusOne(sign) && Cong(Pow(y, q), sign, p)
    ensures Unit(y, p)
  {
    CongScale(Pow(y, q), sign, sign, p);
    Associate(y, Pow(y, q - 1), sign);
    UnitWitness(y, Pow(y, q - 1) * sign, p);
  }

  /** Dividing the two sides of the branch relation. */
  lemma QuotientOfPowers(x: int, u: int, xu: int, y: int, v: int, yv: int, p: int)
    requires p > 0 && Unit(u, p) && Unit(v, p)
    requires Cong(x * u, xu, p) && Cong(y * v, yv, p) && Cong(xu * v, u * yv, p)
    ensures Cong(x, y, p)
  {
    CongMul(x * u, xu, v, v, p);
    CongMul(u, u, y * v, yv, p);
    assert x * u * v == x * (u * v);
    assert u * (y * v) == y * (u * v);
    UnitMul(u, v, p);
    CancelUnit(x, y, u * v, p);
  }

  /** With the differences `t` of responses and `d` of shares: g^t is y^d. */
  lemma DifferenceOfExponents(g: int, y: int, c: nat, s: nat, c': nat, s': nat, d: nat, t: nat, p: int)
    requires p > 0 && Unit(g, p) && Unit(y, p)
    requires Cong(Pow(g, s) * Pow(y, c'), Pow(g, s') * Pow(y, c), p)
    requires Cong(Pow(g, t) * Pow(g, s'), Pow(g, s), p)
    requires Cong(Pow(y, d) * Pow(y, c'), Pow(y, c), p)
    ensures Cong(Pow(g, t), Pow(y, d), p)
  {
    UnitPow(y, c', p);
    UnitPow(g, s', p);
    var gt, gs', gs, yd, yc', yc := Pow(g, t), Pow(g, s'), Pow(g, s), Pow(y, d), Pow(y, c'), Pow(y, c);
    QuotientOfPowers(gt, gs', gs, yd, yc', yc, p);
  }

  lemma PowDifference(b: int, e: nat, f: nat, d: nat, q: int, p: int)
    requires p > 0 && q > 0 && Cong(Pow(b, q), 1, p) && d == (e - f) % q
    ensures Cong(Pow(b, d) * Pow(b, f), Pow(b, e), p)
  {
    ModCong(e - f, q);
    CongAdd(d, e - f, f, f, q);
    PowSameExponent(b, d + f, e, q, p);
    PowAdd(b, d, f);
  }

  lemma {:induction false} PowOfSign(sign: int, k: nat)
    requires PlusMinusOne(sign)
    ensures PlusMinusOne(Pow(sign, k)) && (sign == 1 ==> Pow(sign, k) == 1)
  {
    if k > 0 {
      PowOfSign(sign, k - 1);
    }
  }

  /** One more than a multiple of `q` as exponent multiplies by a sign. */
  lemma PowOneMore(y: int, q: int, k: nat, sign: int, p: int)
    requires p > 0 && q > 0 && Cong(Pow(y, q), sign, p)
    ensures q * k >= 0 && Cong(Pow(y, q * k + 1), Pow(sign, k) * y, p)
  {
    PowPow(y, q, k);
    PowAdd(y, q * k, 1);
    PowCong(Pow(y, q), sign, k, p);
    assert Pow(y, 1) == y;
    CongScale(Pow(y, q * k), Pow(sign, k), y, p);
  }

  /** A sign moves to the other side of a congruence. */
  lemma MoveSign(x: int, y: int, sign: int, p: int)
    requires p > 0 && PlusMinusOne(sign) && Cong(x, sign * y, p)
    ensures Cong(sign * x, y, p)
  {
    CongScale(x, sign * y, sign, p);
    assert x * sign == sign * x && sign * y * sign == y;
  }

  lemma OneAboveMultiple(x: nat, q: int) returns (k: nat)
    requires q > 1 && Cong(x, 1, q)
    ensures x == q * k + 1
  {
    SmallResidue(1, q);
    k := x / q;
  }

  /** Inverting the exponent of `y` modulo `q` leaves `y` up to sign. */
  lemma RootUpToSign(g: int, y: int, t: nat, d: nat, q: int, sign: int, p: int) returns (w: nat, e: int)
    requires p > 0 && Prime(q) && 0 < d < q && PlusMinusOne(sign) && Cong(Pow(y, q), sign, p)
    requires Cong(Pow(g, t), Pow(y, d), p)
    ensures PlusMinusOne(e) && (sign == 1 ==> e == 1) && Cong(e * Pow(g, w), y, p)
  {
    var inverse := PrimeInverse(d, q);
    PowPow(y, d, inverse);
    PowPow(g, t, inverse);
    PowCong(Pow(g, t), Pow(y, d), inverse, p);
    w := t * inverse;
    var k := OneAboveMultiple(d * inverse, q);
    PowOneMore(y, q, k, sign, p);
    PowOfSign(sign, k);
    e := Pow(sign, k);
    MoveSign(Pow(g, w), y, e, p);
  }

  /** From the branch relation with different shares a discrete logarithm of `y`, up to the sign
      that the `q`-th power of `y` has. */
  lemma ExtractUpToSign(grp: GroupParams, y: int, c: nat, s: nat, c': nat, s': nat, sign: int)
    returns (w: nat, e: int)
    requires Prime(grp.q) && PlusMinusOne(sign) && Cong(Pow(y, grp.q), sign, grp.p)
    requires c < grp.q && c' < grp.q && c != c'
    requires Cong(Pow(grp.g, s) * Pow(y, c'), Pow(grp.g, s') * Pow(y, c), grp.p)
    ensures PlusMinusOne(e) && (sign == 1 ==> e == 1) && Cong(e * Pow(grp.g, w), y, grp.p)
    decreases c < c'
  {
    if c < c' {
      w, e := ExtractUpToSign(grp, y, c', s', c, s, sign);
      return;
    }
    var p, q := grp.p, grp.q;
    var d: nat, t: nat := c - c', (s - s') % q;
    PowDifference(grp.g, s, s', t, q, p);
    PowAdd(y, d, c');
    RootOfSignIsUnit(y, q, sign, p);
    DifferenceOfExponents(grp.g, y, c, s, c', s', d, t, p);
    w, e := RootUpToSign(grp.g, y, t, d, q, sign, p);
  }

  /** If `y` has order dividing `q`, the logarithm is one of `y` itself. */
  lemma ExtractLogarithm(grp: GroupParams, y: int, c: nat, s: nat, c': nat, s': nat) returns (w: nat)
    requires Prime(grp.q) && Cong(Pow(y, grp.q), 1, grp.p)
    requires c < grp.q && c' < grp.q && c != c'
    requires Cong(Pow(grp.g, s) * Pow(y, c'), Pow(grp.g, s') * Pow(y, c), grp.p)
    ensures Cong(Pow(grp.g, w), y, grp.p)
  {
    var e;
    w, e := ExtractUpToSign(grp, y, c, s, c', s', 1);
  }

  /** The commitment is recovered from the branch value. */
  lemma BranchOpens(grp: GroupParams, commitment: int, outcome: nat, x: int)
    requires Cong(x, BranchValue(grp, commitment, outcome), grp.p)
    ensures Cong(commitment, x * Pow(grp.h, outcome), grp.p)
  {
    var p := grp.p;
    var hi, ho := PowMod(grp.h, -(outcome as int), p), PowMod(grp.h, outcome, p);
    ModCong(commitment * hi, p);
    PowModCong(grp.h, outcome, p);
    CongMul(x, commitment * hi, Pow(grp.h, outcome), ho, p);
    PowModNegate(grp.h, outcome, p);
    assert ho * hi == hi * ho;
    UndoFactor(commitment, hi, ho, p);
  }

  /** The challenge share and the response of branch `b`. */
  function Share(t: Transcript, b: nat): nat {
    if b == 0 then t.c0 else t.c1
  }

  function Response(t: Transcript, b: nat): nat {
    if b == 0 then t.s0 else t.s1
  }

  ghost predicate AcceptsTranscript(grp: GroupParams, challenge: int, t: Transcript) {
    Accepts(grp, challenge, t.commitment, t.a0, t.a1, t.c0, t.s0, t.c1, t.s1)
  }

  /** The branch value of the committed outcome has order dividing `q`. */
  lemma TrueBranchOrder(grp: GroupParams, outcome: nat, r: nat)
    requires outcome <= 1
    ensures Cong(Pow(BranchValue(grp, Commitment(grp, outcome, r), outcome), grp.q), 1, grp.p)
  {
    var y := BranchValue(grp, Commitment(grp, outcome, r), outcome);
    TrueBranchValue(grp, outcome, r);
    PowCong(y, Pow(grp.g, r), grp.q, grp.p);
    PowPow(grp.g, r, grp.q);
    PowPow(grp.g, grp.q, r);
    assert r * grp.q == grp.q * r;
    PowCong(Pow(grp.g, grp.q), 1, r, grp.p);
    PowOne(r);
  }

  /** A prover asked twice after the same announcements meets the premises of special soundness:
      both transcripts are accepted for their own challenge, only the share of the branch of the
      committed outcome can differ, and the value of that branch has order dividing `q`. */
  lemma ForkedProver(grp: GroupParams, challenge: Challenge, challenge': Challenge, taskId: string, outcome: nat,
                     r: nat, draws: Draws)
    requires outcome <= 1 && DrawnBelow(draws, grp.q)
    ensures var t := BuildTranscript(grp, challenge, taskId, outcome, r, draws);
      var t' := BuildTranscript(grp, challenge', taskId, outcome, r, draws);
      && t.commitment == t'.commitment && t.a0 == t'.a0 && t.a1 == t'.a1
      && AcceptsTranscript(grp, challenge(taskId, t.commitment, t.a0, t.a1) % grp.q, t)
      && AcceptsTranscript(grp, challenge'(taskId, t.commitment, t.a0, t.a1) % grp.q, t')
      && Share(t, 1 - outcome) == Share(t', 1 - outcome)
      && Cong(Pow(BranchValue(grp, t.commitment, outcome), grp.q), 1, grp.p)
  {
    TranscriptAccepted(grp, challenge, taskId, outcome, r, draws);
    TranscriptAccepted(grp, challenge', taskId, outcome, r, draws);
    TrueBranchOrder(grp, outcome, r);
  }

  /** The value of branch `b` is `g^w` and the commitment `g^w h^b`, both up to the sign `e`. */
  ghost predicate OpensTo(grp: GroupParams, commitment: int, b: nat, w: nat, e: int) {
    && Cong(e * Pow(grp.g, w), BranchValue(grp, commitment, b), grp.p)
    && Cong(commitment, e * Pow(grp.g, w) * Pow(grp.h, b), grp.p)
  }

  /** Modulo a safe prime the value of a branch has a sign as its `q`-th power. */
  lemma BranchPowerIsSign(grp: GroupParams, commitment: int, b: nat) returns (sign: int)
    requires Prime(grp.p) && grp.p == 2 * grp.q + 1 && 0 < commitment < grp.p
    ensures PlusMinusOne(sign) && Cong(Pow(BranchValue(grp, commitment, b), grp.q), sign, grp.p)
  {
    var y := BranchValue(grp, commitment, b);
    var inverse := PrimeInverse(commitment, grp.p);
    UnitWitness(commitment, inverse, grp.p);
    BranchValueUnit(grp, commitment, b);
    GaussLemma(y, grp.q);
    sign := Signs(UpperOf(y, grp.q), grp.q);
  }

  /** Opening a branch from two answers with different shares. */
  lemma OpenBranch(grp: GroupParams, commitment: int, b: nat, c: nat, s: nat, c': nat, s': nat, sign: int)
    returns (w: nat, e: int)
    requires Prime(grp.q) && PlusMinusOne(sign) && Cong(Pow(BranchValue(grp, commitment, b), grp.q), sign, grp.p)
    requires c < grp.q && c' < grp.q && c != c'
    requires var y := BranchValue(grp, commitment, b);
      Cong(Pow(grp.g, s) * Pow(y, c'), Pow(grp.g, s') * Pow(y, c), grp.p)
    ensures PlusMinusOne(e) && (sign == 1 ==> e == 1) && OpensTo(grp, commitment, b, w, e)
  {
    w, e := ExtractUpToSign(grp, BranchValue(grp, commitment, b), c, s, c', s', sign);
    BranchOpens(grp, commitment, b, e * Pow(grp.g, w));
  }

  /** Special soundness: two accepted transcripts that share commitment and announcements but
      answer different challenges differ in the share of some branch, that branch satisfies the
      extraction relation, and for prime `q` it opens the commitment to that branch's outcome:
      without a sign if its value has order dividing `q`, and for a safe prime `p` always, up to
      sign. */
  lemma SpecialSoundness(grp: GroupParams, t: Transcript, t': Transcript, challenge: int, challenge': int)
    returns (b: nat)
    requires AcceptsTranscript(grp, challenge, t) && AcceptsTranscript(grp, challenge', t')
    requires t.commitment == t'.commitment && t.a0 == t'.a0 && t.a1 == t'.a1 && challenge != challenge'
    ensures b <= 1 && Share(t, b) % grp.q != Share(t', b) % grp.q
    ensures var y := BranchValue(grp, t.commitment, b);
      && Cong(Pow(grp.g, Response(t, b) % grp.q) * Pow(y, Share(t', b) % grp.q),
              Pow(grp.g, Response(t', b) % grp.q) * Pow(y, Share(t, b) % grp.q), grp.p)
      && (Prime(grp.q) && Cong(Pow(y, grp.q), 1, grp.p) ==>
            exists w: nat :: OpensTo(grp, t.commitment, b, w, 1))
    ensures Prime(grp.q) && Prime(grp.p) && grp.p == 2 * grp.q + 1 ==>
              exists w: nat, e :: PlusMinusOne(e) && OpensTo(grp, t.commitment, b, w, e)
  {
    var q := grp.q;
    b := if t.c0 % q != t'.c0 % q then 0 else 1;
    var y := BranchValue(grp, t.commitment, b);
    var a := if b == 0 then t.a0 else t.a1;
    var c, s, c', s' := Share(t, b) % q, Response(t, b) % q, Share(t', b) % q, Response(t', b) % q;
    BranchRelation(grp, a, y, c, s, c', s');
    if Prime(q) && Cong(Pow(y, q), 1, grp.p) {
      var w, e := OpenBranch(grp, t.commitment, b, c, s, c', s', 1);
    }
    if Prime(q) && Prime(grp.p) && grp.p == 2 * q + 1 {
      var sign := BranchPowerIsSign(grp, t.commitment, b);
      var w, e := OpenBranch(grp, t.commitment, b, c, s, c', s', sign);
    }
  }

  lemma EvenPowerOfNegative(x: int, k: nat)
    ensures Pow(-x, 2 * k) == Pow(x, 2 * k)
  {
    PowPow(-x, 2, k);
    PowPow(x, 2, k);
    assert Pow(-x, 2) == -x * (-x * Pow(-x, 0)) == x * x;
    assert Pow(x, 2) == x * (x * Pow(x, 0)) == x * x;
  }

  /** The sign cannot be dropped: with an even share a branch whose value is the negative of a
      power of g is accepted like the power itself. */
  lemma EvenShareHidesSign(grp: GroupParams, y: int, r: nat, nonce: nat, k: nat)
    requires Cong(y, -Pow(grp.g, r), grp.p)
    ensures BranchAccepts(grp, PowMod(grp.g, nonce, grp.p), y, 2 * k, HonestResponse(nonce, 2 * k, r) % grp.q)
  {
    var x := Pow(grp.g, r);
    TrueBranchAccepts(grp, x, r, nonce, 2 * k);
    EvenPowerOfNegative(x, k);
    PowCong(y, -x, 2 * k, grp.p);
  }
}
