/**
 Concrete slates on a small curve: one that is finalized, one in which a participant signs too early, and
 one that a failed round 1 leaves out of balance.
 */
module SlateExamples {
  import opened Common
  import opened Scalars
  import opened Slates
  import opened SlateProtocol
  import opened SlateBalance

  /** The challenge is the nonce sum, plus the lock height if there is one. */
  const SMALL_CURVE :=
    Curve(101, (nonceSum: Point, keySum: Point, features: KernelFeatures) =>
                 nonceSum.blind + (if features.HeightLocked? then features.lockHeight else 0),
          (message: string, key: int) => NO_SIGNATURE, (tx: Transaction) => true)

  const TWO_PARTY_SLATE :=
    SlateValue(VersionInfo(3, 3, 7), 2, 0, Transaction(0, [], [], []), 0, 1_000_000, 0, 0, None, [], None)

  function ExampleSlate(ps: seq<ParticipantData>, outputs: seq<Output>): SlateValue {
    TWO_PARTY_SLATE.(tx := Transaction(1, [], outputs, [WithFeatures(Plain(1_000_000))]), participantData := ps)
  }

  const FIRST_JOINER := Joiner(0, [OutputElement(4, 10, 0)], 5, None, 1)
  const SECOND_JOINER := Joiner(1, [OutputElement(2, 20, 0)], 7, None, 1)
  const FIRST_OUTPUT := Output(PlainOutput, Point(4, 10), 0)
  const SECOND_OUTPUT := Output(PlainOutput, Point(2, 20), 0)
  const FIRST_PARTICIPANT := ParticipantData(0, Point(3, 0), Point(5, 0), None, None, None)
  const FIRST_SIGNED := FIRST_PARTICIPANT.(partSig := Some(Signature(Point(5, 0), 20)))
  const SECOND_PARTICIPANT := ParticipantData(1, Point(2, 0), Point(7, 0), None, None, None)

  lemma FirstJoins()
    ensures Join(SMALL_CURVE, TWO_PARTY_SLATE, FIRST_JOINER)
            == Slates.Round1(Done, ExampleSlate([FIRST_PARTICIPANT], [FIRST_OUTPUT]), 3)
  {
    var e := [OutputElement(4, 10, 0)];
    assert e[..0] == [];
    assert AddAll(101, UpdateKernel(TWO_PARTY_SLATE).tx, e).outputs == [FIRST_OUTPUT];
    assert BlindSum(e) == 4;
  }

  lemma FirstSigns()
    ensures var s := ExampleSlate([FIRST_PARTICIPANT], [FIRST_OUTPUT]);
            FillRound2(SMALL_CURVE, s, 3, 5, 0) == (Done, ExampleSlate([FIRST_SIGNED], [FIRST_OUTPUT]))
  {
    var s := ExampleSlate([FIRST_PARTICIPANT], [FIRST_OUTPUT]);
    assert Nonces([FIRST_PARTICIPANT]) == [Point(5, 0)] && Keys([FIRST_PARTICIPANT]) == [Point(3, 0)];
    ExampleChallenge([FIRST_PARTICIPANT], [FIRST_OUTPUT]);
    ExampleFees([FIRST_PARTICIPANT], [FIRST_OUTPUT]);
    hide ChallengeOf, CheckFees;
    assert [FIRST_PARTICIPANT][0 := FIRST_SIGNED] == [FIRST_SIGNED];
  }

  lemma SecondJoins()
    ensures Join(SMALL_CURVE, ExampleSlate([FIRST_SIGNED], [FIRST_OUTPUT]), SECOND_JOINER)
            == Slates.Round1(Done, ExampleSlate([FIRST_SIGNED, SECOND_PARTICIPANT], [FIRST_OUTPUT, SECOND_OUTPUT]), 2)
  {
    var e := [OutputElement(2, 20, 0)];
    assert e[..0] == [];
    assert AddAll(101, ExampleSlate([FIRST_SIGNED], [FIRST_OUTPUT]).tx, e).outputs == [FIRST_OUTPUT, SECOND_OUTPUT];
    assert BlindSum(e) == 2;
  }

  lemma SumOfOne(p: Point)
    requires 0 <= p.blind < 101 && p.value == 0
    ensures SumPoints(101, [p]) == p
  {
    assert [p][..0] == [];
  }

  lemma SumOfTwo(p: Point, r: Point)
    requires 0 <= p.blind < 101 && p.value == 0 && r.value == 0 && 0 <= p.blind + r.blind < 101
    ensures SumPoints(101, [p, r]) == Point(p.blind + r.blind, 0)
  {
    SumOfOne(p);
    assert [p, r][..1] == [p];
  }

  /** The challenge of the small curve is the nonce sum. */
  lemma ExampleChallenge(ps: seq<ParticipantData>, outputs: seq<Output>)
    requires |ps| == 1 ==> Nonces(ps) == [Point(5, 0)] && Keys(ps) == [Point(3, 0)]
    requires |ps| == 2 ==> Nonces(ps) == [Point(5, 0), Point(7, 0)] && Keys(ps) == [Point(3, 0), Point(2, 0)]
    requires 1 <= |ps| <= 2
    ensures ChallengeOf(SMALL_CURVE, ExampleSlate(ps, outputs)) == Some(if |ps| == 1 then 5 else 12)
  {
    hide SumPoints, Nonces, Keys;
    SumOfOne(Point(5, 0));
    SumOfOne(Point(3, 0));
    SumOfTwo(Point(5, 0), Point(7, 0));
    SumOfTwo(Point(3, 0), Point(2, 0));
  }

  lemma ExampleFees(ps: seq<ParticipantData>, outputs: seq<Output>)
    requires |outputs| <= 2
    ensures CheckFees(ExampleSlate(ps, outputs))
  {
    var kernels := [WithFeatures(Plain(1_000_000))];
    assert kernels[..0] == [] && TxFee(kernels) == 1_000_000;
  }

  lemma FirstVerifies()
    ensures VerifyPartSigs(SMALL_CURVE, ExampleSlate([FIRST_SIGNED], [FIRST_OUTPUT]))
  {
    assert Nonces([FIRST_SIGNED]) == [Point(5, 0)] && Keys([FIRST_SIGNED]) == [Point(3, 0)];
    ExampleChallenge([FIRST_SIGNED], [FIRST_OUTPUT]);
    assert Verifies(101, 5, Signature(Point(5, 0), 20), Point(3, 0));
    hide ChallengeOf, Verifies, CheckFees;
  }

  lemma SecondCannotSign()
    ensures var t := ExampleSlate([FIRST_SIGNED, SECOND_PARTICIPANT], [FIRST_OUTPUT, SECOND_OUTPUT]);
            && CheckFees(t) && ChallengeOf(SMALL_CURVE, t).Some? && !VerifyPartSigs(SMALL_CURVE, t)
            && FillRound2(SMALL_CURVE, t, 2, 7, 1) == (Failed, t)
  {
    var ps, outputs := [FIRST_SIGNED, SECOND_PARTICIPANT], [FIRST_OUTPUT, SECOND_OUTPUT];
    assert Nonces(ps) == [Point(5, 0), Point(7, 0)] && Keys(ps) == [Point(3, 0), Point(2, 0)];
    ExampleChallenge(ps, outputs);
    ExampleFees(ps, outputs);
    hide ChallengeOf, CheckFees;
    assert !PartSigVerifies(SMALL_CURVE, ExampleSlate(ps, outputs), ps[0]);
  }

  /** One of two participants signs before the other has joined; then the other can no longer sign. */
  lemma LateJoinerExample()
    ensures var c := SMALL_CURVE;
            var first := Join(c, TWO_PARTY_SLATE, FIRST_JOINER);
            var (status, signed) := FillRound2(c, first.slate, first.secKey, 5, 0);
            var second := Join(c, signed, SECOND_JOINER);
            && first.status == Done && status == Done && VerifyPartSigs(c, signed)
            && second.status == Done && CheckFees(second.slate) && ChallengeOf(c, second.slate).Some?
            && !VerifyPartSigs(c, second.slate)
            && FillRound2(c, second.slate, second.secKey, 7, 1) == (Failed, second.slate)
  {
    hide *;
    FirstJoins();
    FirstSigns();
    FirstVerifies();
    SecondJoins();
    SecondCannotSign();
  }

  // ----- a failed round 1 -----

  const UNLUCKY := Joiner(0, [OutputElement(3, 10, 0)], 5, None, 3)

  lemma UnluckyJoins(offset: int, outputs: seq<Output>)
    requires (offset == 0 && outputs == []) || (offset == 3 && outputs == [Output(PlainOutput, Point(3, 10), 0)])
    ensures var s := TWO_PARTY_SLATE.(tx := Transaction(offset, [], outputs, []));
            var s' := TWO_PARTY_SLATE.(tx := Transaction(3, [], [Output(PlainOutput, Point(3, 10), 0)],
                                                         [WithFeatures(Plain(1_000_000))]));
            Join(SMALL_CURVE, s, UNLUCKY) ==
              if offset == 0 then Slates.Round1(Failed, s', 0)
              else Slates.Round1(Done, s'.(participantData := [FIRST_PARTICIPANT]), 3)
  {
    var e := [OutputElement(3, 10, 0)];
    var tx := Transaction(offset, [], outputs, [WithFeatures(Plain(1_000_000))]);
    assert e[..0] == [] && BlindSum(e) == 3;
    assert OutputOf(101, e[0]) == Output(PlainOutput, Point(3, 10), 0);
    assert AddAll(101, tx, e) == AddElement(101, tx, e[0]);
    if offset == 3 {
      assert tx.outputs[0] == OutputOf(101, e[0]);
      assert HasOutput(tx.outputs, OutputOf(101, e[0]));
    }
    assert AddElement(101, tx, e[0]).outputs == [OutputOf(101, e[0])];
    hide AddAll, BlindSum;
    assert [] + [FIRST_PARTICIPANT] == [FIRST_PARTICIPANT];
  }

  /** The blinding factor is 3 and so is the random offset; the second try goes through, off by the offset. */
  lemma FailedRound1Example()
    ensures var c := SMALL_CURVE;
            var first := Join(c, TWO_PARTY_SLATE, UNLUCKY);
            var second := Join(c, first.slate, UNLUCKY);
            && first.status == Failed && first.slate.tx.offset == 3
            && second.status == Done && second.secKey == 3 && second.slate.tx.offset == 3
            && !Accounts(c.q, second.secKey, second.slate.tx)
  {
    var outputs := [Output(PlainOutput, Point(3, 10), 0)];
    UnluckyJoins(0, []);
    UnluckyKernels();
    UnluckyJoins(3, outputs);
    hide Join;
    assert OutputCommits(outputs) == [Point(3, 10)] && [Point(3, 10)][..0] == [];
    assert Blinds([Point(3, 10)]) == 3;
  }

  /** Round 1 replaces the kernel, so the one that is there does not matter. */
  lemma UnluckyKernels()
    ensures var tx := Transaction(3, [], [Output(PlainOutput, Point(3, 10), 0)], []);
            Join(SMALL_CURVE, TWO_PARTY_SLATE.(tx := tx.(kernels := [WithFeatures(Plain(1_000_000))])), UNLUCKY)
            == Join(SMALL_CURVE, TWO_PARTY_SLATE.(tx := tx), UNLUCKY)
  {
    hide AddAll, AddParticipantInfo;
  }

  // ----- a slate that is finalized -----

  /** Its kernel is height-locked unless the lock is 0. */
  function SoloSlate(lock: nat): SlateValue {
    TWO_PARTY_SLATE.(numParticipants := 1, lockHeight := lock)
  }

  function SoloFeatures(lock: nat): KernelFeatures {
    if lock == 0 then Plain(1_000_000) else HeightLocked(1_000_000, lock)
  }

  function SoloSigned(lock: nat): ParticipantData {
    FIRST_PARTICIPANT.(partSig := Some(Signature(Point(5, 0), if lock == 0 then 20 else 5)))
  }

  const SOLO_ELEMENTS := [InputElement(PlainOutput, 1, 1_000_050), OutputElement(5, 50, 0)]
  const SOLO_STEPS := [Step.Round1(0, SOLO_ELEMENTS, 5, None, 1), Step.Round2(0)]
  const SOLO_INPUTS := [Input(PlainOutput, Point(1, 49))]
  const SOLO_OUTPUTS := [Output(PlainOutput, Point(5, 50), 0)]

  function SoloTx(lock: nat): Transaction {
    Transaction(1, SOLO_INPUTS, SOLO_OUTPUTS, [WithFeatures(SoloFeatures(lock))])
  }

  function SoloState(lock: nat, p: ParticipantData): State {
    State(SoloSlate(lock).(tx := SoloTx(lock), participantData := [p]), [Secret(0, 3, 5)])
  }

  lemma SoloElements(tx: Transaction)
    requires tx.inputs == [] && tx.outputs == []
    ensures AddAll(101, tx, SOLO_ELEMENTS) == tx.(inputs := SOLO_INPUTS, outputs := SOLO_OUTPUTS)
    ensures NewElements(101, tx, SOLO_ELEMENTS) && BlindSum(SOLO_ELEMENTS) == 4
  {
    var es := SOLO_ELEMENTS;
    assert es[..1] == [es[0]] && es[..1][..0] == [];
    assert InputOf(101, es[0]) == SOLO_INPUTS[0] && OutputOf(101, es[1]) == SOLO_OUTPUTS[0];
    assert AddAll(101, tx, es[..1]) == AddElement(101, tx, es[0]) == tx.(inputs := SOLO_INPUTS);
    assert AddAll(101, tx, es) == AddElement(101, AddAll(101, tx, es[..1]), es[1]);
    assert BlindSum(es[..1]) == -1;
  }

  lemma SoloJoins(lock: nat)
    ensures Next(SMALL_CURVE, State(SoloSlate(lock), []), SOLO_STEPS[0]) == Some(SoloState(lock, FIRST_PARTICIPANT))
  {
    SoloElements(SoloSlate(lock).tx);
    SoloElements(UpdateKernel(SoloSlate(lock)).tx);
    hide AddAll, NewElements, BlindSum;
    var st := State(SoloSlate(lock), []);
    assert Allowed(SMALL_CURVE, st, SOLO_STEPS[0]);
    var built := SoloSlate(lock).(tx := SoloTx(lock).(offset := 0));
    assert AddTransactionElements(SMALL_CURVE, SoloSlate(lock), SOLO_ELEMENTS) == (built, 4);
    assert FillRound1(SMALL_CURVE, built, 4, 5, 0, None, 1)
           == Slates.Round1(Done, SoloState(lock, FIRST_PARTICIPANT).slate, 3);
    assert [] + [Secret(0, 3, 5)] == [Secret(0, 3, 5)];
  }

  lemma SoloChallenge(lock: nat, p: ParticipantData)
    requires Nonces([p]) == [Point(5, 0)] && Keys([p]) == [Point(3, 0)]
    ensures ChallengeOf(SMALL_CURVE, SoloState(lock, p).slate) == Some(5 + lock)
  {
    hide SumPoints, Nonces, Keys;
    SumOfOne(Point(5, 0));
    SumOfOne(Point(3, 0));
  }

  lemma SoloFees(lock: nat, p: ParticipantData)
    ensures TxFee(SoloTx(lock).kernels) == 1_000_000 && CheckFees(SoloState(lock, p).slate)
  {
    assert SoloTx(lock).kernels[..0] == [];
  }

  lemma SoloSigns(lock: nat)
    requires lock == 0 || lock == 500
    ensures Next(SMALL_CURVE, SoloState(lock, FIRST_PARTICIPANT), SOLO_STEPS[1])
            == Some(SoloState(lock, SoloSigned(lock)))
  {
    assert Nonces([FIRST_PARTICIPANT]) == [Point(5, 0)] && Keys([FIRST_PARTICIPANT]) == [Point(3, 0)];
    SoloChallenge(lock, FIRST_PARTICIPANT);
    SoloFees(lock, FIRST_PARTICIPANT);
    hide ChallengeOf, CheckFees;
    var st := SoloState(lock, FIRST_PARTICIPANT);
    assert st.secrets[0].id == 0 && 0 in Ids(st.secrets) && SecretIndex(st.secrets, 0) == 0;
    assert [FIRST_PARTICIPANT][0 := SoloSigned(lock)] == [SoloSigned(lock)];
    assert FillRound2(SMALL_CURVE, st.slate, 3, 5, 0) == (Done, SoloState(lock, SoloSigned(lock)).slate);
  }

  lemma SoloRun(lock: nat)
    requires lock == 0 || lock == 500
    ensures Run(SMALL_CURVE, State(SoloSlate(lock), []), SOLO_STEPS) == Some(SoloState(lock, SoloSigned(lock)))
  {
    hide Next, SoloState;
    SoloJoins(lock);
    SoloSigns(lock);
    var start := State(SoloSlate(lock), []);
    assert SOLO_STEPS[..1][..0] == [];
    assert Run(SMALL_CURVE, start, SOLO_STEPS[..1]) == Some(SoloState(lock, FIRST_PARTICIPANT));
  }

  lemma SoloBalance(lock: nat)
    ensures BlindExcess(SoloTx(lock)) == 4 && ValueGap(SoloTx(lock)) == 1_000_001
  {
    var ins, outs := [Point(1, 49)], [Point(5, 50)];
    assert InputCommits(SOLO_INPUTS) == ins && OutputCommits(SOLO_OUTPUTS) == outs;
    assert ins[..0] == [] && outs[..0] == [];
    assert Values(outs) == 50 && Values(ins) == 49 && Blinds(outs) == 5 && Blinds(ins) == 1;
    SoloFees(lock, SoloSigned(lock));
    hide Values, Blinds, InputCommits, OutputCommits, TxFee;
  }

  lemma SoloSums()
    ensures Sum(SecretKeys([Secret(0, 3, 5)])) == 3 && Sum(SecretNonces([Secret(0, 3, 5)])) == 5
  {
    assert SecretKeys([Secret(0, 3, 5)]) == [3] && SecretNonces([Secret(0, 3, 5)]) == [5];
    assert [3][..0] == [] && [5][..0] == [];
  }

  lemma SoloSignature(lock: nat)
    requires lock == 0 || lock == 500
    ensures ReadyToFinalize(SMALL_CURVE, SoloSlate(lock), SOLO_STEPS)
    ensures FinalizeSignature(SMALL_CURVE, SoloState(lock, SoloSigned(lock)).slate)
            == (Done, SoloSigned(lock).partSig.value)
    ensures PubBlindSum(SMALL_CURVE, SoloState(lock, SoloSigned(lock)).slate) == Some(Point(3, 0))
  {
    hide Run, FinalizeSignature, PubBlindSum, PubNonceSum, Sum, SecretKeys, SecretNonces, Verifies;
    SoloRun(lock);
    SoloSums();
    FinalSignatureVerifies(SMALL_CURVE, SoloSlate(lock), SOLO_STEPS);
    assert KeyPoint(101, 3) == Point(3, 0);
    assert forall e: int :: PartialSignature(101, e, 3, 5).nonce == Point(5, 0);
    assert PartialSignature(101, 5 + lock, 3, 5) == SoloSigned(lock).partSig.value;
  }

  /**
   One participant spends 1000050 into 50 and the fee of 1000000, signs, and finalizes: with a plain kernel,
   or with one that is locked up to height 500, which the signature is then made for.
   */
  lemma SoloFinalizes(lock: nat)
    requires lock == 0 || lock == 500
    ensures Run(SMALL_CURVE, State(SoloSlate(lock), []), SOLO_STEPS) == Some(SoloState(lock, SoloSigned(lock)))
    ensures ReadyToFinalize(SMALL_CURVE, SoloSlate(lock), SOLO_STEPS)
    ensures var t := SoloState(lock, SoloSigned(lock)).slate;
            var kernel := if lock == 0 then TxKernel(Plain(1_000_000), Point(3, 0), Signature(Point(5, 0), 20))
                          else TxKernel(HeightLocked(1_000_000, 500), Point(3, 0), Signature(Point(5, 0), 5));
            Finalize(SMALL_CURVE, t) == (Done, t.(tx := SoloTx(lock).(kernels := [kernel])))
  {
    hide Run, Finalize, FinalizeSignature, CalcExcess, KernelVerifies, CheckFees, BlindExcess, ValueGap, TxFee,
         PubBlindSum, ReadyToFinalize;
    SoloRun(lock);
    SoloSignature(lock);
    SoloBalance(lock);
    SoloFees(lock, SoloSigned(lock));
    BalancedFinalizes(SMALL_CURVE, SoloSlate(lock), SOLO_STEPS);
  }
}
