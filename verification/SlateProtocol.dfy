/**
 Runs of the slate protocol: N participants add their part of the transaction and fill round 1, then
 all fill round 2 in any order, then anyone finalizes. What holds in every reachable state, and why
 finalizing succeeds.
 */
module SlateProtocol {
  import opened Common
  import opened Scalars
  import opened Slates
  import opened SlateVersions

  /** What a participant keeps to itself: its key after a possible split, and its nonce. */
  datatype Secret = Secret(id: nat, key: int, nonce: int)

  /** secrets[i] belongs to the i-th participant recorded in the slate. */
  datatype State = State(slate: SlateValue, secrets: seq<Secret>)

  datatype Step =
    | Round1(id: nat, elems: seq<Element>, nonce: int, message: Option<string>, random: int)
    | Round2(id: nat)
    | Transmit

  function Ids(secrets: seq<Secret>): set<nat> {
    set i | 0 <= i < |secrets| :: secrets[i].id
  }

  function SecretIndex(secrets: seq<Secret>, id: nat): (i: nat)
    requires id in Ids(secrets)
    ensures i < |secrets| && secrets[i].id == id
  {
    if secrets[|secrets| - 1].id == id then |secrets| - 1
    else SecretIndex(secrets[..|secrets| - 1], id)
  }

  /** Inputs and outputs that the transaction does not hold yet, each once. */
  ghost predicate NewElements(q: Order, tx: Transaction, elems: seq<Element>) {
    elems != [] ==>
      var front, e := elems[..|elems| - 1], elems[|elems| - 1];
      && NewElements(q, tx, front)
      && IsNew(q, AddAll(q, tx, front), e)
  }

  /**
   The discipline the slate asks of its users: every participant does round 1 once, under its own id,
   with new commitments and a random non-zero offset at hand; round 2 waits for all of round 1.
   */
  ghost predicate Allowed(c: Curve, st: State, step: Step) {
    match step
    case Round1(id, elems, nonce, _, random) =>
      && id !in Ids(st.secrets)
      && |st.secrets| < st.slate.numParticipants
      && 0 < random < c.q
      && NewElements(c.q, st.slate.tx, elems)
    case Round2(id) => id in Ids(st.secrets) && |st.secrets| == st.slate.numParticipants
    case Transmit => true
  }

  /** A participant passes a slate on only when its operation succeeded. */
  ghost function Next(c: Curve, st: State, step: Step): Option<State> {
    if !Allowed(c, st, step) then None else
      match step
      case Round1(id, elems, nonce, message, random) =>
        var (built, blind) := AddTransactionElements(c, st.slate, elems);
        var r := FillRound1(c, built, blind, nonce, id, message, random);
        if r.status == Done then Some(State(r.slate, st.secrets + [Secret(id, r.secKey, nonce)])) else None
      case Round2(id) =>
        var secret := st.secrets[SecretIndex(st.secrets, id)];
        var (status, slate) := FillRound2(c, st.slate, secret.key, secret.nonce, id);
        if status == Done then Some(st.(slate := slate)) else None
      case Transmit => Some(st.(slate := FromV3(ToV3(st.slate))))
  }

  ghost function Run(c: Curve, st: State, steps: seq<Step>): Option<State> {
    if steps == [] then Some(st) else
      match Run(c, st, steps[..|steps| - 1])
      case None => None
      case Some(mid) => Next(c, mid, steps[|steps| - 1])
  }

  /** A slate as its creator starts it: amounts and lock height set, nothing added yet. */
  predicate Fresh(s: SlateValue) {
    s.tx == Transaction(0, [], [], []) && s.participantData == []
  }

  // ----- the invariant -----

  function SecretKeys(secrets: seq<Secret>): (r: seq<int>)
    ensures |r| == |secrets|
  {
    seq(|secrets|, i requires 0 <= i < |secrets| => secrets[i].key)
  }

  function SecretNonces(secrets: seq<Secret>): (r: seq<int>)
    ensures |r| == |secrets|
  {
    seq(|secrets|, i requires 0 <= i < |secrets| => secrets[i].nonce)
  }

  /** The participant's public data are those of its secrets, and so is its signature if it has signed. */
  predicate Honest(c: Curve, s: SlateValue, p: ParticipantData, secret: Secret) {
    && p.id == secret.id
    && p.publicBlindExcess == KeyPoint(c.q, secret.key)
    && p.publicNonce == KeyPoint(c.q, secret.nonce)
    && (p.partSig.Some? ==>
          ChallengeOf(c, s).Some?
          && p.partSig.value == PartialSignature(c.q, ChallengeOf(c, s).value, secret.key, secret.nonce))
  }

  predicate SigningInv(c: Curve, st: State) {
    && |st.slate.participantData| == |st.secrets| <= st.slate.numParticipants
    && (forall i | 0 <= i < |st.secrets| :: Honest(c, st.slate, st.slate.participantData[i], st.secrets[i]))
    && (forall i | 0 <= i < |st.secrets| ::
          st.slate.participantData[i].partSig.Some? ==> |st.secrets| == st.slate.numParticipants)
    && (forall i, j | 0 <= i < j < |st.secrets| :: st.secrets[i].id != st.secrets[j].id)
  }

  /** The kernel carries the features that signers sign, and nothing else yet. */
  predicate KernelInv(st: State) {
    if st.secrets == [] then st.slate.tx.kernels == []
    else st.slate.tx.kernels == [WithFeatures(FeaturesOf(st.slate))]
  }

  function BlindExcess(tx: Transaction): int {
    Blinds(OutputCommits(tx.outputs)) - Blinds(InputCommits(tx.inputs))
  }

  /** The participants' keys and the one offset make up the blinding factors of the transaction. */
  predicate BalanceInv(c: Curve, st: State) {
    && (st.secrets == [] ==> st.slate.tx.offset == 0)
    && (st.secrets != [] ==> 0 < st.slate.tx.offset < c.q)
    && Same(c.q, Sum(SecretKeys(st.secrets)) + st.slate.tx.offset, BlindExcess(st.slate.tx))
  }

  predicate Inv(c: Curve, st: State) {
    SigningInv(c, st) && KernelInv(st) && BalanceInv(c, st)
  }

  // ----- round 1 keeps it -----

  lemma {:induction false} AddAllKeepsRest(q: Order, tx: Transaction, elems: seq<Element>)
    ensures AddAll(q, tx, elems).offset == tx.offset
    ensures AddAll(q, tx, elems).kernels == tx.kernels
  {
    if elems != [] {
      AddAllKeepsRest(q, tx, elems[..|elems| - 1]);
    }
  }

  /** New commitments move the blinding excess by exactly the blinding factor returned for them. */
  lemma {:induction false} AddAllBlinds(q: Order, tx: Transaction, elems: seq<Element>)
    requires NewElements(q, tx, elems)
    ensures Same(q, BlindExcess(AddAll(q, tx, elems)), BlindExcess(tx) + BlindSum(elems))
  {
    hide Same, BlindExcess, AddElement;
    if elems == [] {
      SameRefl(q, BlindExcess(tx));
    } else {
      var front, e := elems[..|elems| - 1], elems[|elems| - 1];
      AddAllBlinds(q, tx, front);
      AddElementBlinds(q, AddAll(q, tx, front), e, BlindExcess(tx) + BlindSum(front));
    }
  }

  lemma AddElementBlinds(q: Order, tx: Transaction, e: Element, total: int)
    requires Same(q, BlindExcess(tx), total)
    requires IsNew(q, tx, e)
    ensures Same(q, BlindExcess(AddElement(q, tx, e)), total + BlindOf(e))
  {
    hide Same, Blinds;
    var p := Commit(q, e.blind, e.value);
    SameMod(q, e.blind);
    if e.InputElement? {
      assert InputCommits(tx.inputs + [InputOf(q, e)]) == InputCommits(tx.inputs) + [p];
      TotalsAppend(InputCommits(tx.inputs), p);
      SameSub(q, BlindExcess(tx), total, e.blind % q, e.blind);
    } else {
      assert OutputCommits(tx.outputs + [OutputOf(q, e)]) == OutputCommits(tx.outputs) + [p];
      TotalsAppend(OutputCommits(tx.outputs), p);
      SameAdd(q, BlindExcess(tx), total, e.blind % q, e.blind);
    }
  }

  lemma SecretKeysAppend(secrets: seq<Secret>, s: Secret)
    ensures Sum(SecretKeys(secrets + [s])) == Sum(SecretKeys(secrets)) + s.key
  {
    assert SecretKeys(secrets + [s]) == SecretKeys(secrets) + [s.key];
    SumAppend(SecretKeys(secrets), s.key);
  }

  lemma Round1KeepsBalance(c: Curve, st: State, step: Step)
    requires step.Round1? && BalanceInv(c, st) && Next(c, st, step).Some?
    ensures BalanceInv(c, Next(c, st, step).value)
  {
    hide Same, BlindExcess;
    var q, tx, next := c.q, st.slate.tx, Next(c, st, step).value;
    var updated := UpdateKernel(st.slate).tx;
    var built := AddAll(q, updated, step.elems);
    SameBlinds(tx, updated);
    NewElementsKernels(q, tx, updated, step.elems);
    AddAllKeepsRest(q, updated, step.elems);
    AddAllBlinds(q, updated, step.elems);
    Round1Effect(c, st, step);
    hide Next, AddAll, NewElements;
    var secret := next.secrets[|st.secrets|];
    SecretKeysAppend(st.secrets, secret);
    SameBlinds(built, next.slate.tx);
    SplitKeepsBalance(q, Sum(SecretKeys(st.secrets)), tx.offset, step.random, BlindSum(step.elems), BlindExcess(tx),
                      BlindExcess(built), secret.key);
  }

  lemma SameBlinds(tx: Transaction, tx': Transaction)
    requires tx.inputs == tx'.inputs && tx.outputs == tx'.outputs
    ensures BlindExcess(tx) == BlindExcess(tx')
  {
  }

  lemma Round1Effect(c: Curve, st: State, step: Step)
    requires step.Round1? && Next(c, st, step).Some?
    ensures var (next, tx) := (Next(c, st, step).value, st.slate.tx);
            && |next.secrets| == |st.secrets| + 1
            && next.secrets == st.secrets + [next.secrets[|st.secrets|]]
            && next.slate.tx == AddAll(c.q, UpdateKernel(st.slate).tx, step.elems)
                                .(offset := if tx.offset == 0 then step.random else tx.offset)
            && next.secrets[|st.secrets|].key ==
                 (if tx.offset == 0 then (BlindSum(step.elems) % c.q - step.random) % c.q
                  else BlindSum(step.elems) % c.q)
            && 0 < step.random < c.q && NewElements(c.q, tx, step.elems)
  {
    AddAllKeepsRest(c.q, UpdateKernel(st.slate).tx, step.elems);
  }

  /** Adding a key, or splitting it between key and offset, adds its blinding factor to the total. */
  lemma SplitKeepsBalance(q: Order, total: int, offset: int, random: int, blinds: int, before: int, after: int,
                          key: int)
    requires Same(q, total + offset, before) && Same(q, after, before + blinds)
    requires key == if offset == 0 then (blinds % q - random) % q else blinds % q
    ensures Same(q, total + key + (if offset == 0 then random else offset), after)
  {
    hide Same;
    SameMod(q, blinds);
    var offset' := if offset == 0 then random else offset;
    SameRefl(q, random);
    SameSub(q, blinds % q, blinds, random, random);
    SameMod(q, blinds % q - random);
    SameTrans(q, (blinds % q - random) % q, blinds % q - random, blinds - random);
    assert Same(q, key, blinds - (offset' - offset)) by {
      if offset != 0 {
        assert offset' == offset;
      }
    }
    SameAdd(q, total + offset, before, key, blinds - (offset' - offset));
    SameRefl(q, offset' - offset);
    SameAdd(q, total + offset + key, before + (blinds - (offset' - offset)), offset' - offset, offset' - offset);
    SameSym(q, after, before + blinds);
    SameTrans(q, total + key + offset', before + blinds, after);
  }

  /** Whether commitments are new does not depend on the kernel. */
  lemma {:induction false} NewElementsKernels(q: Order, tx: Transaction, tx': Transaction, elems: seq<Element>)
    requires tx' == tx.(kernels := tx'.kernels) && NewElements(q, tx, elems)
    ensures NewElements(q, tx', elems)
    ensures AddAll(q, tx', elems) == AddAll(q, tx, elems).(kernels := tx'.kernels)
  {
    if elems != [] {
      NewElementsKernels(q, tx, tx', elems[..|elems| - 1]);
    }
  }

  lemma Round1KeepsRest(c: Curve, st: State, step: Step)
    requires step.Round1? && SigningInv(c, st) && Next(c, st, step).Some?
    ensures var next := Next(c, st, step).value; SigningInv(c, next) && KernelInv(next)
  {
    AddAllKeepsRest(c.q, UpdateKernel(st.slate).tx, step.elems);
  }

  // ----- round 2 keeps it -----

  /** The first of the first n participants with this id is i. */
  predicate FirstWithId(ps: seq<ParticipantData>, n: nat, id: nat, i: nat) {
    i < n <= |ps| && ps[i].id == id && forall j | 0 <= j < i :: ps[j].id != id
  }

  /**
   Where a signature ends up, for any slate: with the first participant of this id among those counted, all
   else being left. Without one it is dropped, or the search aborts when fewer are recorded than counted.
   */
  lemma SetPartSigOutcome(s: SlateValue, id: nat, sig: Signature)
    ensures var (status, t) := SetPartSig(s, id, sig);
            var ps := s.participantData;
            var n := if s.numParticipants <= |ps| then s.numParticipants else |ps|;
            && (status == Aborted <==> |ps| < s.numParticipants && forall i | 0 <= i < |ps| :: ps[i].id != id)
            && status != Failed
            && ((forall i | 0 <= i < n :: ps[i].id != id) ==> t == s)
            && t == s.(participantData := t.participantData)
            && forall i: nat | FirstWithId(ps, n, id, i) ::
                 t.participantData == ps[i := ParticipantData(id, ps[i].publicBlindExcess, ps[i].publicNonce, Some(sig),
                                                              ps[i].message, ps[i].messageSig)]
  {
    var ps := s.participantData;
    var n := if s.numParticipants <= |ps| then s.numParticipants else |ps|;
    var k := IndexOf(ps, id, n);
    forall i: nat | FirstWithId(ps, n, id, i) ensures i == k {
      assert k < n ==> ps[k].id == id;
    }
    if n == |ps| {
      assert k == n <==> forall i | 0 <= i < |ps| :: ps[i].id != id;
    }
  }

  /** Setting a signature leaves the nonce sum, the key sum and the signed message alone. */
  lemma SetPartSigKeepsChallenge(c: Curve, s: SlateValue, id: nat, sig: Signature)
    ensures ChallengeOf(c, SetPartSig(s, id, sig).1) == ChallengeOf(c, s)
    ensures PubNonceSum(c, SetPartSig(s, id, sig).1) == PubNonceSum(c, s)
    ensures PubBlindSum(c, SetPartSig(s, id, sig).1) == PubBlindSum(c, s)
  {
    var t := SetPartSig(s, id, sig).1;
    assert Nonces(t.participantData) == Nonces(s.participantData);
    assert Keys(t.participantData) == Keys(s.participantData);
  }

  lemma Round2Keeps(c: Curve, st: State, step: Step)
    requires step.Round2? && Inv(c, st) && Next(c, st, step).Some?
    ensures Inv(c, Next(c, st, step).value)
  {
    hide ChallengeOf, PartialSignature, VerifyPartSigs, CheckFees;
    var s, i := st.slate, SecretIndex(st.secrets, step.id);
    var sig := PartialSignature(c.q, ChallengeOf(c, s).value, st.secrets[i].key, st.secrets[i].nonce);
    SetPartSigKeepsChallenge(c, s, step.id, sig);
    var j := IndexOf(s.participantData, step.id, s.numParticipants);
    assert j == i by {
      assert s.participantData[i].id == step.id;
      assert j < |st.secrets| && s.participantData[j].id == st.secrets[j].id;
    }
  }

  // ----- every run -----

  lemma NextKeeps(c: Curve, st: State, step: Step)
    requires Inv(c, st) && Next(c, st, step).Some?
    ensures Inv(c, Next(c, st, step).value)
    ensures Next(c, st, step).value.slate.numParticipants == st.slate.numParticipants
  {
    match step {
      case Round1(_, _, _, _, _) =>
        Round1KeepsBalance(c, st, step);
        Round1KeepsRest(c, st, step);
      case Round2(_) =>
        Round2Keeps(c, st, step);
      case Transmit =>
        RoundTrip(st.slate);
    }
  }

  lemma FreshInv(c: Curve, s: SlateValue)
    requires Fresh(s)
    ensures Inv(c, State(s, []))
  {
  }

  lemma {:induction false} RunKeeps(c: Curve, s: SlateValue, steps: seq<Step>)
    requires Fresh(s) && Run(c, State(s, []), steps).Some?
    ensures Inv(c, Run(c, State(s, []), steps).value)
  {
    hide Inv, Next;
    if steps == [] {
      FreshInv(c, s);
    } else {
      RunKeeps(c, s, steps[..|steps| - 1]);
      NextKeeps(c, Run(c, State(s, []), steps[..|steps| - 1]).value, steps[|steps| - 1]);
    }
  }

  /** What a step never changes: the agreed amounts, and the offset once there is one. */
  lemma NextFixes(c: Curve, st: State, step: Step)
    requires Inv(c, st) && Next(c, st, step).Some?
    ensures var (s, t) := (st.slate, Next(c, st, step).value.slate);
            && t.amount == s.amount && t.fee == s.fee && t.lockHeight == s.lockHeight
            && t.numParticipants == s.numParticipants
            && (s.tx.offset != 0 ==> t.tx.offset == s.tx.offset)
  {
    match step {
      case Round1(_, elems, _, _, _) =>
        AddAllKeepsRest(c.q, UpdateKernel(st.slate).tx, elems);
      case Round2(_) =>
      case Transmit =>
        RoundTrip(st.slate);
    }
  }

  /**
   In every state after the first contribution the kernel's features are made from the fee and lock height
   that the slate was created with, and they are what every challenge is made for.
   */
  lemma {:induction false} KernelAgreement(c: Curve, s: SlateValue, steps: seq<Step>)
    requires Fresh(s) && Run(c, State(s, []), steps).Some?
    ensures var st := Run(c, State(s, []), steps).value;
            var features := if s.lockHeight == 0 then Plain(s.fee) else HeightLocked(s.fee, s.lockHeight);
            && FeaturesOf(st.slate) == features
            && (st.secrets != [] ==>
                  st.slate.tx.kernels == [TxKernel(features, Point(0, 0), Signature(Point(0, 0), 0))])
            && ChallengeOf(c, st.slate) ==
                 (if PubNonceSum(c, st.slate).None? || PubBlindSum(c, st.slate).None? then None
                  else Some(c.challenge(PubNonceSum(c, st.slate).value, PubBlindSum(c, st.slate).value, features)))
  {
    hide Next;
    RunKeeps(c, s, steps);
    if steps != [] {
      var before := steps[..|steps| - 1];
      KernelAgreement(c, s, before);
      RunKeeps(c, s, before);
      NextFixes(c, Run(c, State(s, []), before).value, steps[|steps| - 1]);
    }
    hide PubNonceSum, PubBlindSum;
  }

  /** What the fee-carrying kernels carry. */
  function FeeSum(kernels: seq<TxKernel>): nat {
    if kernels == [] then 0 else
      var features := kernels[|kernels| - 1].features;
      FeeSum(kernels[..|kernels| - 1]) + (if features.Coinbase? then 0 else features.fee)
  }

  /** Adding with saturation yields the capped sum. */
  lemma {:induction false} TxFeeIsCappedSum(kernels: seq<TxKernel>)
    ensures TxFee(kernels) ==
              if FeeSum(kernels) <= 0xffff_ffff_ffff_ffff then FeeSum(kernels) else 0xffff_ffff_ffff_ffff
  {
    if kernels != [] {
      TxFeeIsCappedSum(kernels[..|kernels| - 1]);
    }
  }

  /** Both the kernels' fees and amount plus fee must pay 100000 for each unit of weight, and for one at least. */
  lemma CheckFeesIff(s: SlateValue)
    ensures var weight := 4 * |s.tx.outputs| + |s.tx.kernels| - |s.tx.inputs|;
            var kernelFees := if FeeSum(s.tx.kernels) <= U64_MAX then FeeSum(s.tx.kernels) else U64_MAX;
            CheckFees(s) <==>
              && kernelFees >= 100_000 && kernelFees >= weight * 100_000
              && s.amount + s.fee >= 100_000 && s.amount + s.fee >= weight * 100_000
  {
    TxFeeIsCappedSum(s.tx.kernels);
    hide TxFee, FeeSum;
  }

  lemma OneKernelFee(features: KernelFeatures, fee: nat)
    requires features == Plain(fee) || exists height :: features == HeightLocked(fee, height)
    ensures TxFee([WithFeatures(features)]) == if fee <= 0xffff_ffff_ffff_ffff then fee else 0xffff_ffff_ffff_ffff
  {
    assert [WithFeatures(features)][..0] == [];
  }

  /**
   Fees are in order in such a state exactly when the fee, which is the kernel's for both kinds of kernel, pays
   0.001 for each unit of weight: four for an output and one for a kernel, less one for an input, at least one.
   */
  lemma FeesInOrderIff(c: Curve, s: SlateValue, steps: seq<Step>)
    requires Fresh(s) && s.fee <= U64_MAX && Run(c, State(s, []), steps).Some?
    requires Run(c, State(s, []), steps).value.secrets != []
    ensures var t := Run(c, State(s, []), steps).value.slate;
            var weight := 4 * |t.tx.outputs| + 1 - |t.tx.inputs|;
            && TxFee(t.tx.kernels) == s.fee
            && (CheckFees(t) <==> s.fee >= 100_000 && s.fee >= weight * 100_000)
  {
    KernelAgreement(c, s, steps);
    var features := if s.lockHeight == 0 then Plain(s.fee) else HeightLocked(s.fee, s.lockHeight);
    OneKernelFee(features, s.fee);
    SameFee(c, s, steps);
    hide Run;
  }

  lemma {:induction false} SameFee(c: Curve, s: SlateValue, steps: seq<Step>)
    requires Fresh(s) && Run(c, State(s, []), steps).Some?
    ensures Run(c, State(s, []), steps).value.slate.fee == s.fee
  {
    hide Next;
    if steps != [] {
      var before := steps[..|steps| - 1];
      SameFee(c, s, before);
      RunKeeps(c, s, before);
      NextFixes(c, Run(c, State(s, []), before).value, steps[|steps| - 1]);
    }
  }

  /** So round 2 fails, and changes nothing, exactly when the fee is too low or the sums are degenerate. */
  lemma Round2FailsIff(c: Curve, s: SlateValue, steps: seq<Step>, id: nat)
    requires Fresh(s) && s.fee <= U64_MAX && Run(c, State(s, []), steps).Some?
    requires Allowed(c, Run(c, State(s, []), steps).value, Round2(id))
    ensures var st := Run(c, State(s, []), steps).value;
            var secret := st.secrets[SecretIndex(st.secrets, id)];
            var weight := 4 * |st.slate.tx.outputs| + 1 - |st.slate.tx.inputs|;
            FillRound2(c, st.slate, secret.key, secret.nonce, id) == (Failed, st.slate) <==>
              s.fee < 100_000 || s.fee < weight * 100_000
              || Sum(SecretNonces(st.secrets)) % c.q == 0 || Sum(SecretKeys(st.secrets)) % c.q == 0
  {
    var st := Run(c, State(s, []), steps).value;
    FeesInOrderIff(c, s, steps);
    RunKeeps(c, s, steps);
    PublicSums(c, st);
    PartSigsAlwaysVerify(c, s, steps);
    Round2Succeeds(c, s, steps, id);
    hide Run, CheckFees, VerifyPartSigs, Inv, SumPoints, PartialSignature, Sum, SecretKeys, SecretNonces;
  }

  /** Sending the slate to another wallet at any point of a run changes nothing later. */
  lemma {:induction false} TransmitAnywhere(c: Curve, st: State, before: seq<Step>, after: seq<Step>)
    ensures Run(c, st, before + [Transmit] + after) == Run(c, st, before + after)
  {
    hide Next;
    var with, without := before + [Transmit] + after, before + after;
    if after == [] {
      assert with[..|with| - 1] == before == without;
      if Run(c, st, before).Some? {
        TransmitNext(c, Run(c, st, before).value);
      }
    } else {
      var front := after[..|after| - 1];
      TransmitAnywhere(c, st, before, front);
      assert with[..|with| - 1] == before + [Transmit] + front;
      assert without[..|without| - 1] == before + front;
    }
  }

  lemma TransmitNext(c: Curve, st: State)
    ensures Next(c, st, Transmit) == Some(st)
  {
    RoundTrip(st.slate);
  }

  // ----- signatures -----

  /** (k + e·x)·G = k·G + e·(x·G): an honest signature verifies under its own key. */
  lemma PartialVerifies(q: Order, e: int, key: int, nonce: int)
    ensures Verifies(q, e, PartialSignature(q, e, key, nonce), KeyPoint(q, key))
  {
    SameMod(q, nonce + e * key);
    SameMod(q, key);
    SameMul(q, e, key % q, key);
    SameMod(q, e * (key % q));
    SameMod(q, nonce);
    SameAdd(q, nonce % q, nonce, e * (key % q) % q, e * key);
  }

  lemma HonestVerifies(c: Curve, st: State, i: nat)
    requires SigningInv(c, st) && i < |st.secrets|
    ensures PartSigVerifies(c, st.slate, st.slate.participantData[i])
  {
    hide Verifies, PartialSignature, ChallengeOf;
    if st.slate.participantData[i].partSig.Some? {
      PartialVerifies(c.q, ChallengeOf(c, st.slate).value, st.secrets[i].key, st.secrets[i].nonce);
    }
  }

  lemma SigningInvVerifies(c: Curve, st: State)
    requires SigningInv(c, st)
    ensures VerifyPartSigs(c, st.slate)
  {
    hide PartSigVerifies;
    forall i | 0 <= i < |st.slate.participantData| ensures PartSigVerifies(c, st.slate, st.slate.participantData[i]) {
      HonestVerifies(c, st, i);
    }
  }

  /** In every state of every run, the partial signatures collected so far verify. */
  lemma PartSigsAlwaysVerify(c: Curve, s: SlateValue, steps: seq<Step>)
    requires Fresh(s) && Run(c, State(s, []), steps).Some?
    ensures VerifyPartSigs(c, Run(c, State(s, []), steps).value.slate)
  {
    RunKeeps(c, s, steps);
    SigningInvVerifies(c, Run(c, State(s, []), steps).value);
  }

  /** No earlier signature can make a participant's round 2 fail: only the fees or degenerate sums can. */
  lemma Round2Succeeds(c: Curve, s: SlateValue, steps: seq<Step>, id: nat)
    requires Fresh(s) && Run(c, State(s, []), steps).Some?
    requires Allowed(c, Run(c, State(s, []), steps).value, Round2(id))
    ensures var st := Run(c, State(s, []), steps).value;
            Next(c, st, Round2(id)).Some? <==> CheckFees(st.slate) && ChallengeOf(c, st.slate).Some?
  {
    hide ChallengeOf, CheckFees, Run, PartialSignature, VerifyPartSigs;
    var st := Run(c, State(s, []), steps).value;
    RunKeeps(c, s, steps);
    PartSigsAlwaysVerify(c, s, steps);
    var i := SecretIndex(st.secrets, id);
    assert st.slate.participantData[i].id == id;
  }

  /** The partial scalars add up to k + e·x of the summed nonces and keys. */
  lemma {:induction false} ScalarsAddUp(q: Order, e: int, scalars: seq<int>, keys: seq<int>, nonces: seq<int>)
    requires |scalars| == |keys| == |nonces|
    requires forall i | 0 <= i < |keys| :: scalars[i] == (nonces[i] + e * keys[i]) % q
    ensures Same(q, Sum(scalars), Sum(nonces) + e * Sum(keys))
  {
    if keys != [] {
      var n := |keys| - 1;
      ScalarsAddUp(q, e, scalars[..n], keys[..n], nonces[..n]);
      SameMod(q, nonces[n] + e * keys[n]);
      SameAdd(q, Sum(scalars[..n]), Sum(nonces[..n]) + e * Sum(keys[..n]), scalars[n], nonces[n] + e * keys[n]);
      Distribute(e, Sum(keys[..n]), keys[n]);
    }
  }

  lemma Distribute(e: int, a: int, b: int)
    ensures e * (a + b) == e * a + e * b
  {
  }

  lemma PublicSums(c: Curve, st: State)
    requires SigningInv(c, st)
    ensures SumPoints(c.q, Nonces(st.slate.participantData)) == KeyPoint(c.q, Sum(SecretNonces(st.secrets)))
    ensures SumPoints(c.q, Keys(st.slate.participantData)) == KeyPoint(c.q, Sum(SecretKeys(st.secrets)))
  {
    hide ChallengeOf, PartialSignature, SumPoints, KeyPoint;
    SumOfKeys(c.q, Nonces(st.slate.participantData), SecretNonces(st.secrets));
    SumOfKeys(c.q, Keys(st.slate.participantData), SecretKeys(st.secrets));
  }

  /** The aggregate is the signature that the summed key would make with the summed nonce. */
  lemma AggregateSignature(c: Curve, st: State)
    requires SigningInv(c, st) && AllSigned(st.slate) && ChallengeOf(c, st.slate).Some?
    ensures AddSignatures(c.q, PartSigScalars(st.slate.participantData), PubNonceSum(c, st.slate).value)
            == PartialSignature(c.q, ChallengeOf(c, st.slate).value, Sum(SecretKeys(st.secrets)),
                                Sum(SecretNonces(st.secrets)))
  {
    PublicSums(c, st);
    ScalarsAddUp(c.q, ChallengeOf(c, st.slate).value, PartSigScalars(st.slate.participantData),
                 SecretKeys(st.secrets), SecretNonces(st.secrets));
  }

  /**
   Once all have signed, the signature that finalizing yields is the summed one, and it verifies under
   the sum of the public keys.
   */
  lemma FinalSignatureVerifies(c: Curve, s: SlateValue, steps: seq<Step>)
    requires Fresh(s) && Run(c, State(s, []), steps).Some?
    requires var t := Run(c, State(s, []), steps).value.slate; t.participantData != [] && AllSigned(t)
    ensures var st := Run(c, State(s, []), steps).value;
            var (status, sig) := FinalizeSignature(c, st.slate);
            && status == Done
            && |st.secrets| == st.slate.numParticipants
            && PubBlindSum(c, st.slate) == Some(KeyPoint(c.q, Sum(SecretKeys(st.secrets))))
            && PubNonceSum(c, st.slate) == Some(sig.nonce)
            && var e := c.challenge(sig.nonce, PubBlindSum(c, st.slate).value, FeaturesOf(st.slate));
               && sig == PartialSignature(c.q, e, Sum(SecretKeys(st.secrets)), Sum(SecretNonces(st.secrets)))
               && Verifies(c.q, e, sig, PubBlindSum(c, st.slate).value)
  {
    RunKeeps(c, s, steps);
    PartSigsAlwaysVerify(c, s, steps);
    var st := Run(c, State(s, []), steps).value;
    hide Run, Verifies, SumPoints, VerifyPartSigs, FeaturesOf;
    assert Honest(c, st.slate, st.slate.participantData[0], st.secrets[0]);
    PublicSums(c, st);
    AggregateSignature(c, st);
    PartialVerifies(c.q, ChallengeOf(c, st.slate).value, Sum(SecretKeys(st.secrets)), Sum(SecretNonces(st.secrets)));
  }

  // ----- completing round 2 -----

  function Signings(ids: seq<nat>): (steps: seq<Step>)
    ensures |steps| == |ids|
  {
    seq(|ids|, i requires 0 <= i < |ids| => Round2(ids[i]))
  }

  /** Round 1 is complete, the fees are in order, and the public sums are not degenerate. */
  predicate ReadyToSign(c: Curve, st: State) {
    |st.secrets| == st.slate.numParticipants && CheckFees(st.slate) && ChallengeOf(c, st.slate).Some?
  }

  predicate Signed(st: State, i: nat)
    requires i < |st.secrets| && |st.slate.participantData| == |st.secrets|
  {
    st.slate.participantData[i].partSig.Some?
  }

  /** One participant's round 2 signs its entry and no other, and leaves everybody ready to sign. */
  lemma OneSigns(c: Curve, st: State, id: nat)
    requires Inv(c, st) && ReadyToSign(c, st) && Next(c, st, Round2(id)).Some?
    ensures var st' := Next(c, st, Round2(id)).value;
            && ReadyToSign(c, st') && st'.secrets == st.secrets
            && |st'.slate.participantData| == |st.secrets|
            && forall i | 0 <= i < |st.secrets| :: Signed(st', i) <==> Signed(st, i) || st.secrets[i].id == id
  {
    hide ChallengeOf, PartialSignature, VerifyPartSigs;
    var s, i := st.slate, SecretIndex(st.secrets, id);
    var sig := PartialSignature(c.q, ChallengeOf(c, s).value, st.secrets[i].key, st.secrets[i].nonce);
    SetPartSigKeepsChallenge(c, s, id, sig);
    var j := IndexOf(s.participantData, id, s.numParticipants);
    assert j == i by {
      assert s.participantData[i].id == id;
      assert j < |st.secrets| && s.participantData[j].id == st.secrets[j].id;
    }
  }

  /**
   From a reachable state in which round 1 is complete, participants can sign in any order and any
   number of times: every round 2 succeeds, and exactly those who signed before or now have signed.
   */
  lemma {:induction false} AnyOrderSigns(c: Curve, s: SlateValue, steps: seq<Step>, ids: seq<nat>)
    requires Fresh(s) && Run(c, State(s, []), steps).Some?
    requires ReadyToSign(c, Run(c, State(s, []), steps).value)
    requires forall i | 0 <= i < |ids| :: ids[i] in Ids(Run(c, State(s, []), steps).value.secrets)
    ensures var st := Run(c, State(s, []), steps).value;
            var after := Run(c, State(s, []), steps + Signings(ids));
            && after.Some? && ReadyToSign(c, after.value) && after.value.secrets == st.secrets
            && |after.value.slate.participantData| == |st.secrets| == |st.slate.participantData|
            && (forall i | 0 <= i < |st.secrets| ::
                  Signed(after.value, i) <==> Signed(st, i) || st.secrets[i].id in ids)
            && ((forall i | 0 <= i < |st.secrets| :: st.secrets[i].id in ids) ==> AllSigned(after.value.slate))
    decreases |ids|
  {
    hide Next, ReadyToSign, Inv, Fresh;
    var start := State(s, []);
    var st := Run(c, start, steps).value;
    RunKeeps(c, s, steps);
    assert |st.slate.participantData| == |st.secrets| by { InvLengths(c, st); }
    if ids == [] {
      assert steps + Signings(ids) == steps;
    } else {
      var front, id := ids[..|ids| - 1], ids[|ids| - 1];
      AnyOrderSigns(c, s, steps, front);
      var all, part := steps + Signings(ids), steps + Signings(front);
      assert all[..|all| - 1] == part;
      assert all[|all| - 1] == Round2(id);
      var mid := Run(c, start, part).value;
      RunKeeps(c, s, part);
      hide Run;
      assert Run(c, start, all) == Next(c, mid, Round2(id)) by { LastStep(c, start, all); }
      assert ids == front + [id] && id in Ids(mid.secrets);
      CanSign(c, s, part, id);
      OneSigns(c, mid, id);
    }
    EverybodySigned(Run(c, start, steps + Signings(ids)).value);
  }

  lemma EverybodySigned(st: State)
    requires |st.slate.participantData| == |st.secrets|
    ensures (forall i | 0 <= i < |st.secrets| :: Signed(st, i)) <==> AllSigned(st.slate)
  {
    if AllSigned(st.slate) {
      forall i | 0 <= i < |st.secrets| ensures Signed(st, i) {
      }
    }
    if forall i | 0 <= i < |st.secrets| :: Signed(st, i) {
      forall i | 0 <= i < |st.slate.participantData| ensures st.slate.participantData[i].partSig.Some? {
        assert Signed(st, i);
      }
    }
  }

  lemma InvLengths(c: Curve, st: State)
    requires Inv(c, st)
    ensures |st.slate.participantData| == |st.secrets|
  {
  }

  lemma LastStep(c: Curve, st: State, steps: seq<Step>)
    requires steps != [] && Run(c, st, steps[..|steps| - 1]).Some?
    ensures Run(c, st, steps) == Next(c, Run(c, st, steps[..|steps| - 1]).value, steps[|steps| - 1])
  {
    hide Next;
  }

  lemma CanSign(c: Curve, s: SlateValue, steps: seq<Step>, id: nat)
    requires Fresh(s) && Run(c, State(s, []), steps).Some?
    requires ReadyToSign(c, Run(c, State(s, []), steps).value)
    requires id in Ids(Run(c, State(s, []), steps).value.secrets)
    ensures Next(c, Run(c, State(s, []), steps).value, Round2(id)).Some?
  {
    hide Run, Next, ChallengeOf, CheckFees;
    Round2Succeeds(c, s, steps, id);
  }
}
