/**
 What verification of a stored outcome proof accepts: the exact equations, what becomes of a proof
 that is relabelled for another task, and soundness for two stored proofs.
 */
module OutcomeVerifier {
  import opened Wrappers
  import opened ModArith
  import opened Decimal
  import opened OutcomeProof

  const NUMBERS := {"commitment", "a0", "a1", "c0", "s0", "c1", "s1"}

  /** The scheme is the expected one, there is a task id, and all seven numbers are there. */
  predicate Readable(proof: Proof) {
    && "scheme" in proof && proof["scheme"] == "oan-binary-outcome-or-schnorr-v1"
    && "task_id" in proof
    && forall name :: name in NUMBERS ==> name in proof && ParseInt(proof[name]).Some?
  }

  function Number(proof: Proof, name: string): int
    requires Readable(proof) && name in NUMBERS
  {
    ParseInt(proof[name]).value
  }

  /** The hash of a readable proof under a task id. */
  function Hashed(challenge: Challenge, proof: Proof, taskId: string): nat
    requires Readable(proof)
  {
    challenge(taskId, Number(proof, "commitment"), Number(proof, "a0"), Number(proof, "a1"))
  }

  predicate InGroup(grp: GroupParams, proof: Proof)
    requires Readable(proof)
  {
    forall name :: name in {"commitment", "a0", "a1"} ==> 0 < Number(proof, name) < grp.p
  }

  /** The two branches without any inverse: the second has the outcome 1 multiplied out. */
  predicate BranchesHold(grp: GroupParams, proof: Proof)
    requires Readable(proof)
  {
    var commitment := Number(proof, "commitment");
    var c0, s0 := Number(proof, "c0") % grp.q, Number(proof, "s0") % grp.q;
    var c1, s1 := Number(proof, "c1") % grp.q, Number(proof, "s1") % grp.q;
    && Cong(Pow(grp.g, s0), Number(proof, "a0") * Pow(commitment, c0), grp.p)
    && Cong(Pow(grp.g, s1) * Pow(grp.h, c1), Number(proof, "a1") * Pow(commitment, c1), grp.p)
  }

  /* ---------- the equations ---------- */

  lemma BranchIff(grp: GroupParams, a: int, y: int, c: nat, s: nat)
    ensures BranchAccepts(grp, a, y, c, s) <==> Cong(Pow(grp.g, s), a * Pow(y, c), grp.p)
  {
    PowModCong(y, c, grp.p);
    CongMul(a, a, PowMod(y, c, grp.p), Pow(y, c), grp.p);
  }

  lemma SameFactor(x: int, a: int, y: int, z: int, p: int)
    requires p > 0 && Cong(y, z, p)
    ensures Cong(x, a * y, p) <==> Cong(x, a * z, p)
  {
    CongMul(a, a, y, z, p);
  }

  /** The branch of outcome 0. */
  lemma ZeroBranchIff(grp: GroupParams, a: int, commitment: int, c: nat, s: nat)
    ensures BranchAccepts(grp, a, BranchValue(grp, commitment, 0), c, s)
       <==> Cong(Pow(grp.g, s), a * Pow(commitment, c), grp.p)
  {
    var y := BranchValue(grp, commitment, 0);
    BranchOpens(grp, commitment, 0, y);
    assert y * Pow(grp.h, 0) == y;
    BranchIff(grp, a, y, c, s);
    PowCong(commitment, y, c, grp.p);
    SameFactor(Pow(grp.g, s), a, Pow(y, c), Pow(commitment, c), grp.p);
  }

  lemma ScaledIff(x: int, y: int, u: int, p: int)
    requires p > 0 && Unit(u, p)
    ensures Cong(x, y, p) <==> Cong(x * u, y * u, p)
  {
    if Cong(x, y, p) {
      CongScale(x, y, u, p);
    }
    if Cong(x * u, y * u, p) {
      CancelUnit(x, y, u, p);
    }
  }

  lemma MultipliedOut(x: int, a: int, y: int, u: int, z: int, p: int)
    requires p > 0 && Unit(u, p) && Cong(y * u, z, p)
    ensures Cong(x, a * y, p) <==> Cong(x * u, a * z, p)
  {
    ScaledIff(x, a * y, u, p);
    assert a * y * u == a * (y * u);
    SameFactor(x * u, a, y * u, z, p);
  }

  lemma PowerOfCommitment(grp: GroupParams, commitment: int, c: nat)
    ensures Cong(Pow(BranchValue(grp, commitment, 1), c) * Pow(grp.h, c), Pow(commitment, c), grp.p)
  {
    var y := BranchValue(grp, commitment, 1);
    BranchOpens(grp, commitment, 1, y);
    assert Pow(grp.h, 1) == grp.h * Pow(grp.h, 0) == grp.h;
    PowCong(commitment, y * grp.h, c, grp.p);
    PowProduct(y, grp.h, c);
  }

  /** The branch of outcome 1, multiplied by a power of h. */
  lemma OneBranchIff(grp: GroupParams, a: int, commitment: int, c: nat, s: nat)
    ensures BranchAccepts(grp, a, BranchValue(grp, commitment, 1), c, s)
       <==> Cong(Pow(grp.g, s) * Pow(grp.h, c), a * Pow(commitment, c), grp.p)
  {
    var y := BranchValue(grp, commitment, 1);
    BranchIff(grp, a, y, c, s);
    PowerOfCommitment(grp, commitment, c);
    UnitPow(grp.h, c, grp.p);
    MultipliedOut(Pow(grp.g, s), a, Pow(y, c), Pow(grp.h, c), Pow(commitment, c), grp.p);
  }

  lemma SumIff(c0: int, c1: int, hash: int, q: int)
    requires q > 0
    ensures (c0 % q + c1 % q) % q == hash % q <==> Cong(c0 + c1, hash, q)
  {
    ModCong(c0, q);
    ModCong(c1, q);
    CongAdd(c0 % q, c0, c1 % q, c1, q);
  }

  lemma ReadableIff(proof: Proof)
    ensures Readable(proof)
       <==> "scheme" in proof && proof["scheme"] == SCHEME && "task_id" in proof
            && Field(proof, "commitment").Some? && Field(proof, "a0").Some? && Field(proof, "a1").Some?
            && Field(proof, "c0").Some? && Field(proof, "c1").Some? && Field(proof, "s0").Some?
            && Field(proof, "s1").Some?
  {
  }

  /** The arithmetic of verification as equations. */
  lemma AcceptsIff(grp: GroupParams, hash: nat, commitment: int, a0: int, a1: int, c0: int, s0: int, c1: int, s1: int)
    ensures Accepts(grp, hash % grp.q, commitment, a0, a1, c0, s0, c1, s1)
       <==> && 0 < commitment < grp.p && 0 < a0 < grp.p && 0 < a1 < grp.p
            && Cong(c0 + c1, hash, grp.q)
            && Cong(Pow(grp.g, s0 % grp.q), a0 * Pow(commitment, c0 % grp.q), grp.p)
            && Cong(Pow(grp.g, s1 % grp.q) * Pow(grp.h, c1 % grp.q), a1 * Pow(commitment, c1 % grp.q), grp.p)
  {
    ZeroBranchIff(grp, a0, commitment, c0 % grp.q, s0 % grp.q);
    OneBranchIff(grp, a1, commitment, c1 % grp.q, s1 % grp.q);
    SumIff(c0, c1, hash, grp.q);
  }

  lemma InGroupIff(grp: GroupParams, proof: Proof)
    requires Readable(proof)
    ensures InGroup(grp, proof)
       <==> 0 < Number(proof, "commitment") < grp.p && 0 < Number(proof, "a0") < grp.p
            && 0 < Number(proof, "a1") < grp.p
  {
  }

  /** Verification of a readable proof is the arithmetic on its numbers. */
  lemma VerifiesNumbers(grp: GroupParams, challenge: Challenge, proof: Proof)
    ensures VerifyProof(grp, challenge, proof)
       <==> Readable(proof)
            && Accepts(grp, Hashed(challenge, proof, proof["task_id"]) % grp.q, Number(proof, "commitment"),
                       Number(proof, "a0"), Number(proof, "a1"), Number(proof, "c0"), Number(proof, "s0"),
                       Number(proof, "c1"), Number(proof, "s1"))
  {
    ReadableIff(proof);
  }

  /** What is accepted: a readable proof with commitment and announcements in range, whose shares add up
      to the hash of its own task id, commitment and announcements, and whose branches hold. */
  lemma VerifiesIff(grp: GroupParams, challenge: Challenge, proof: Proof)
    ensures VerifyProof(grp, challenge, proof)
       <==> Readable(proof) && InGroup(grp, proof) && BranchesHold(grp, proof)
            && Cong(Number(proof, "c0") + Number(proof, "c1"), Hashed(challenge, proof, proof["task_id"]), grp.q)
  {
    VerifiesNumbers(grp, challenge, proof);
    if Readable(proof) {
      InGroupIff(grp, proof);
      AcceptsIff(grp, Hashed(challenge, proof, proof["task_id"]), Number(proof, "commitment"), Number(proof, "a0"),
                 Number(proof, "a1"), Number(proof, "c0"), Number(proof, "s0"), Number(proof, "c1"),
                 Number(proof, "s1"));
    }
  }

  /* ---------- relabelling ---------- */

  lemma RelabelKeeps(grp: GroupParams, proof: Proof, other: string)
    requires Readable(proof)
    ensures var moved := proof["task_id" := other];
      && Readable(moved) && moved["task_id"] == other
      && (forall name :: name in NUMBERS ==> Number(moved, name) == Number(proof, name))
      && (InGroup(grp, moved) <==> InGroup(grp, proof)) && (BranchesHold(grp, moved) <==> BranchesHold(grp, proof))
  {
    var moved := proof["task_id" := other];
    assert forall name :: name in NUMBERS ==> name != "task_id" && moved[name] == proof[name];
  }

  /** An accepted proof is bound to its task: relabelled for another one it is accepted if and only if
      the two hashes agree modulo q. */
  lemma RelabelledIff(grp: GroupParams, challenge: Challenge, proof: Proof, other: string)
    requires VerifyProof(grp, challenge, proof)
    ensures Readable(proof)
    ensures VerifyProof(grp, challenge, proof["task_id" := other])
       <==> Cong(Hashed(challenge, proof, other), Hashed(challenge, proof, proof["task_id"]), grp.q)
  {
    VerifiesIff(grp, challenge, proof);
    VerifiesIff(grp, challenge, proof["task_id" := other]);
    RelabelKeeps(grp, proof, other);
  }

  /* ---------- creation ---------- */

  /** A created proof commits to the outcome it was made for, under the hashed nonce, for its task. */
  lemma CreatedOpens(grp: GroupParams, digest: string -> nat, challenge: Challenge, taskId: string, outcome: int,
                     nonce: string, draws: Draws)
    requires DrawnBelow(draws, grp.q)
    requires CreateProof(grp, digest, challenge, taskId, outcome, nonce, draws).Ok?
    ensures var proof := CreateProof(grp, digest, challenge, taskId, outcome, nonce, draws).value;
      && Readable(proof) && proof["task_id"] == taskId && 0 <= outcome <= 1
      && OpensTo(grp, Number(proof, "commitment"), outcome, digest(nonce) % grp.q, 1)
  {
    var proof := CreateProof(grp, digest, challenge, taskId, outcome, nonce, draws).value;
    var r := digest(nonce) % grp.q;
    var t := BuildTranscript(grp, challenge, taskId, outcome, r, draws);
    Completeness(grp, digest, challenge, taskId, outcome, nonce, draws);
    VerifiesIff(grp, challenge, proof);
    EncodedFields(taskId, t);
    assert Number(proof, "commitment") == t.commitment;
    CommitmentOpens(grp, outcome, r);
  }

  lemma CommitmentOpens(grp: GroupParams, outcome: nat, r: nat)
    requires outcome <= 1
    ensures OpensTo(grp, Commitment(grp, outcome, r), outcome, r, 1)
  {
    TrueBranchValue(grp, outcome, r);
    assert 1 * Pow(grp.g, r) == Pow(grp.g, r);
    BranchOpens(grp, Commitment(grp, outcome, r), outcome, Pow(grp.g, r));
  }

  /** An honest proof moved to another task is rejected unless the hashes agree. */
  lemma HonestRelabelledIff(grp: GroupParams, digest: string -> nat, challenge: Challenge, taskId: string, outcome: int,
                            nonce: string, draws: Draws, other: string)
    requires DrawnBelow(draws, grp.q)
    requires CreateProof(grp, digest, challenge, taskId, outcome, nonce, draws).Ok?
    ensures var proof := CreateProof(grp, digest, challenge, taskId, outcome, nonce, draws).value;
      && Readable(proof)
      && (VerifyProof(grp, challenge, proof["task_id" := other])
          <==> Cong(Hashed(challenge, proof, other), Hashed(challenge, proof, taskId), grp.q))
  {
    var proof := CreateProof(grp, digest, challenge, taskId, outcome, nonce, draws).value;
    Completeness(grp, digest, challenge, taskId, outcome, nonce, draws);
    CreatedOpens(grp, digest, challenge, taskId, outcome, nonce, draws);
    RelabelledIff(grp, challenge, proof, other);
  }

  /* ---------- soundness ---------- */

  /** The numbers of a proof, shares and responses reduced. */
  function Reading(grp: GroupParams, proof: Proof): Transcript
    requires Readable(proof) && InGroup(grp, proof)
  {
    Transcript(Number(proof, "commitment"), Number(proof, "a0"), Number(proof, "a1"),
               Number(proof, "c0") % grp.q, Number(proof, "s0") % grp.q,
               Number(proof, "c1") % grp.q, Number(proof, "s1") % grp.q)
  }

  lemma AcceptsReduced(grp: GroupParams, challenge: int, commitment: int, a0: int, a1: int, c0: int, s0: int, c1: int,
                       s1: int)
    requires Accepts(grp, challenge, commitment, a0, a1, c0, s0, c1, s1)
    ensures Accepts(grp, challenge, commitment, a0, a1, c0 % grp.q, s0 % grp.q, c1 % grp.q, s1 % grp.q)
  {
    SmallResidue(c0 % grp.q, grp.q);
    SmallResidue(s0 % grp.q, grp.q);
    SmallResidue(c1 % grp.q, grp.q);
    SmallResidue(s1 % grp.q, grp.q);
  }

  lemma VerifiedReading(grp: GroupParams, challenge: Challenge, proof: Proof)
    requires VerifyProof(grp, challenge, proof)
    ensures Readable(proof) && InGroup(grp, proof)
    ensures AcceptsTranscript(grp, Hashed(challenge, proof, proof["task_id"]) % grp.q, Reading(grp, proof))
  {
    VerifiesNumbers(grp, challenge, proof);
    InGroupIff(grp, proof);
    AcceptsReduced(grp, Hashed(challenge, proof, proof["task_id"]) % grp.q, Number(proof, "commitment"),
                   Number(proof, "a0"), Number(proof, "a1"), Number(proof, "c0"), Number(proof, "s0"),
                   Number(proof, "c1"), Number(proof, "s1"));
  }

  /** Soundness of what is verified: two accepted proofs with the same commitment and announcements whose
      hashes differ open the commitment to the outcome of a branch in which their shares differ: for
      prime `q` without a sign if the value of the branch has order dividing `q`, and for a safe prime
      `p` always, up to sign. */
  lemma VerifiedSoundness(grp: GroupParams, challenge: Challenge, proof: Proof, challenge': Challenge, proof': Proof)
    returns (b: nat)
    requires VerifyProof(grp, challenge, proof) && VerifyProof(grp, challenge', proof')
    requires Readable(proof) && Readable(proof')
    requires forall name :: name in {"commitment", "a0", "a1"} ==> Number(proof, name) == Number(proof', name)
    requires !Cong(Hashed(challenge, proof, proof["task_id"]), Hashed(challenge', proof', proof'["task_id"]), grp.q)
    ensures b <= 1
    ensures var share := if b == 0 then "c0" else "c1"; !Cong(Number(proof, share), Number(proof', share), grp.q)
    ensures var commitment := Number(proof, "commitment");
      && (Prime(grp.q) && Cong(Pow(BranchValue(grp, commitment, b), grp.q), 1, grp.p) ==>
            exists w: nat :: OpensTo(grp, commitment, b, w, 1))
      && (Prime(grp.q) && Prime(grp.p) && grp.p == 2 * grp.q + 1 ==>
            exists w: nat, e :: PlusMinusOne(e) && OpensTo(grp, commitment, b, w, e))
  {
    VerifiedReading(grp, challenge, proof);
    VerifiedReading(grp, challenge', proof');
    var t, t' := Reading(grp, proof), Reading(grp, proof');
    b := SpecialSoundness(grp, t, t', Hashed(challenge, proof, proof["task_id"]) % grp.q,
                          Hashed(challenge', proof', proof'["task_id"]) % grp.q);
    SmallResidue(Share(t, b), grp.q);
    SmallResidue(Share(t', b), grp.q);
  }
}
