/**
 Balance: the excess computed from inputs, outputs, fee and offset is the sum of the participants'
 public keys, so that the kernel verifies; and what happens when amounts do not balance or the
 protocol's order is not kept.
 */
module SlateBalance {
  import opened Common
  import opened Scalars
  import opened Slates
  import opened SlateProtocol

  /** By how much outputs and fee exceed the inputs. */
  function ValueGap(tx: Transaction): int {
    Values(OutputCommits(tx.outputs)) - Values(InputCommits(tx.inputs)) + AsI64(TxFee(tx.kernels))
  }

  // ----- when a signature verifies -----

  /** A signature made for challenge e verifies under challenge e' and any point in exactly this case. */
  lemma VerifiesIff(q: Order, e: int, e': int, key: int, nonce: int, blind: int, value: int)
    ensures Verifies(q, e', PartialSignature(q, e, key, nonce), Commit(q, blind, value))
            <==> Same(q, e * key, e' * blind) && Same(q, e' * value, 0)
  {
    hide Same, AddPoints, Scale;
    ReducedKey(q, nonce + e * key);
    ScaleCommit(q, e', blind, value);
    AddCommits(q, nonce, 0, e' * blind, e' * value);
    SameCommits(q, nonce + e * key, 0, nonce + e' * blind, e' * value);
    Cancel(q, nonce, e * key, e' * blind);
  }

  lemma SameCommits(q: Order, a: int, v: int, b: int, w: int)
    ensures Commit(q, a, v) == Commit(q, b, w) <==> Same(q, a, b) && Same(q, w, v)
  {
  }

  lemma Cancel(q: Order, n: int, a: int, b: int)
    ensures Same(q, n + a, n + b) <==> Same(q, a, b)
  {
    if Same(q, n + a, n + b) {
      SameSub(q, n + a, n + b, n, n);
    }
    if Same(q, a, b) {
      SameAdd(q, n, n, a, b);
    }
  }

  // ----- joining late -----

  /** What a participant brings along. */
  datatype Joiner = Joiner(id: nat, elems: seq<Element>, nonce: int, message: Option<string>, random: int)

  /** Round 1 as a wallet does it: add inputs and outputs, then fill in the participant. */
  function Join(c: Curve, s: SlateValue, j: Joiner): Slates.Round1 {
    var (built, blind) := AddTransactionElements(c, s, j.elems);
    FillRound1(c, built, blind, j.nonce, j.id, j.message, j.random)
  }

  /** All public data and signatures are honest. Somebody may have signed before all have joined. */
  predicate AllHonest(c: Curve, st: State) {
    && |st.slate.participantData| == |st.secrets|
    && forall i | 0 <= i < |st.secrets| :: Honest(c, st.slate, st.slate.participantData[i], st.secrets[i])
  }

  /** Round 2 does not wait for all to have joined: whoever is there can sign, and honestly so. */
  lemma EarlySigning(c: Curve, st: State, i: nat)
    requires AllHonest(c, st) && i < |st.secrets|
    requires forall k | 0 <= k < i :: st.secrets[k].id != st.secrets[i].id
    requires FillRound2(c, st.slate, st.secrets[i].key, st.secrets[i].nonce, st.secrets[i].id).0 == Done
    ensures var t := FillRound2(c, st.slate, st.secrets[i].key, st.secrets[i].nonce, st.secrets[i].id).1;
            && AllHonest(c, State(t, st.secrets))
            && (i < st.slate.numParticipants ==> t.participantData[i].partSig.Some?)
  {
    hide ChallengeOf, PartialSignature, VerifyPartSigs, CheckFees;
    var s, secret := st.slate, st.secrets[i];
    SetPartSigKeepsChallenge(c, s, secret.id, PartialSignature(c.q, ChallengeOf(c, s).value, secret.key, secret.nonce));
    var n := if s.numParticipants <= |st.secrets| then s.numParticipants else |st.secrets|;
    var k := IndexOf(s.participantData, secret.id, n);
    assert Honest(c, s, s.participantData[i], secret);
    assert k < n ==> s.participantData[k].id == st.secrets[k].id;
  }

  /** The challenge has become another one, but the change annihilates the key. */
  predicate Outlives(c: Curve, s: SlateValue, t: SlateValue, key: int) {
    && ChallengeOf(c, s).Some? && ChallengeOf(c, t).Some?
    && Same(c.q, (ChallengeOf(c, s).value - ChallengeOf(c, t).value) * key, 0)
  }

  lemma OtherChallenge(q: Order, e: int, e': int, key: int, nonce: int)
    ensures Verifies(q, e', PartialSignature(q, e, key, nonce), KeyPoint(q, key)) <==> Same(q, (e - e') * key, 0)
  {
    VerifiesIff(q, e, e', key, nonce, key, 0);
    assert (e - e') * key == e * key - e' * key;
    if Same(q, e * key, e' * key) {
      SameSub(q, e * key, e' * key, e' * key, e' * key);
    }
    if Same(q, e * key - e' * key, 0) {
      SameAdd(q, e * key - e' * key, 0, e' * key, e' * key);
    }
  }

  lemma JoinAppends(c: Curve, s: SlateValue, j: Joiner)
    requires Join(c, s, j).status == Done
    ensures var ps := Join(c, s, j).slate.participantData;
            var n := |s.participantData|;
            |ps| == n + 1 && ps[..n] == s.participantData && ps[n].partSig.None?
  {
  }

  /**
   Order matters: once somebody has joined after participant i signed, that signature still verifies
   exactly when the change of the challenge annihilates the signer's key.
   */
  lemma LateChallenge(c: Curve, st: State, i: nat, j: Joiner)
    requires AllHonest(c, st) && i < |st.secrets| && st.slate.participantData[i].partSig.Some?
    requires Join(c, st.slate, j).status == Done
    ensures var t := Join(c, st.slate, j).slate;
            && i < |t.participantData|
            && (PartSigVerifies(c, t, t.participantData[i]) <==> Outlives(c, st.slate, t, st.secrets[i].key))
  {
    JoinAppends(c, st.slate, j);
    var t := Join(c, st.slate, j).slate;
    assert t.participantData[i] == t.participantData[..|st.secrets|][i];
    hide Join, ChallengeOf, Verifies, PartialSignature, Same;
    assert Honest(c, st.slate, st.slate.participantData[i], st.secrets[i]);
    if ChallengeOf(c, t).Some? {
      var e, e' := ChallengeOf(c, st.slate).value, ChallengeOf(c, t).value;
      OtherChallenge(c.q, e, e', st.secrets[i].key, st.secrets[i].nonce);
    }
  }

  /**
   So the slate's signatures all verify after a late round 1 exactly when every one of them outlives the
   change; otherwise whoever comes next cannot sign, and the slate cannot be finalized.
   */
  lemma LateJoiner(c: Curve, st: State, j: Joiner)
    requires AllHonest(c, st)
    requires Join(c, st.slate, j).status == Done
    ensures var t := Join(c, st.slate, j).slate;
            && (VerifyPartSigs(c, t) <==>
                  forall i | 0 <= i < |st.secrets| && st.slate.participantData[i].partSig.Some? ::
                    Outlives(c, st.slate, t, st.secrets[i].key))
            && (!VerifyPartSigs(c, t) ==>
                  && (forall key, nonce, id :: FillRound2(c, t, key, nonce, id) == (Failed, t))
                  && Finalize(c, t) == (Failed, t))
  {
    JoinAppends(c, st.slate, j);
    var n, t := |st.secrets|, Join(c, st.slate, j).slate;
    forall i | 0 <= i < n
      ensures PartSigVerifies(c, t, t.participantData[i])
              <==> (st.slate.participantData[i].partSig.Some? ==> Outlives(c, st.slate, t, st.secrets[i].key))
    {
      assert t.participantData[i] == t.participantData[..n][i];
      if st.slate.participantData[i].partSig.Some? {
        LateChallenge(c, st, i, j);
      }
    }
    hide Join, Outlives, Honest;
    assert PartSigVerifies(c, t, t.participantData[n]);
    hide PartSigVerifies;
  }

  /**
   A first round 1 that fails for a degenerate key has set the offset all the same: the slate then
   carries an offset that was split out of no participant's key.
   */
  lemma FailedRound1KeepsOffset(c: Curve, s: SlateValue, key: int, nonce: int, id: nat, message: Option<string>,
                                random: int)
    requires s.tx.offset == 0
    ensures var r := FillRound1(c, s, key, nonce, id, message, random);
            (r.status == Failed <==> Same(c.q, key, random) || Same(c.q, nonce, 0))
            && (r.status == Failed ==> r.slate == s.(tx := s.tx.(offset := random)))
  {
    SameMod(c.q, key - random);
    if Same(c.q, key, random) {
      SameSub(c.q, key, random, random, random);
    }
    if Same(c.q, key - random, 0) {
      SameAdd(c.q, key - random, 0, random, random);
    }
  }

  // ----- trying again -----

  /** What is new is added at the end: inputs with the features of what they spend, outputs plain, with their proof. */
  lemma NewIsAdded(q: Order, tx: Transaction, e: Element)
    requires IsNew(q, tx, e)
    ensures var p := Point(e.blind % q, e.value % q);
            AddElement(q, tx, e) ==
              match e
              case InputElement(features, _, _) => tx.(inputs := tx.inputs + [Input(features, p)])
              case OutputElement(_, _, proof) => tx.(outputs := tx.outputs + [Output(PlainOutput, p, proof)])
  {
  }

  /** Exactly when it is new: no input or output of the same features has the same commitment. */
  lemma IsNewIff(q: Order, tx: Transaction, e: Element)
    ensures var p := Point(e.blind % q, e.value % q);
            IsNew(q, tx, e) <==>
              if e.InputElement? then forall i | 0 <= i < |tx.inputs| ::
                tx.inputs[i].features != e.features || tx.inputs[i].commit != p
              else forall i | 0 <= i < |tx.outputs| ::
                tx.outputs[i].features != PlainOutput || tx.outputs[i].commit != p
  {
    if e.InputElement? {
      var p := Point(e.blind % q, e.value % q);
      if i :| 0 <= i < |tx.inputs| && tx.inputs[i].features == e.features && tx.inputs[i].commit == p {
        assert tx.inputs[i] == InputOf(q, e);
      }
    }
  }

  lemma OldAfterOne(q: Order, tx: Transaction, added: Element, e: Element)
    requires !IsNew(q, tx, e) || e == added
    ensures !IsNew(q, AddElement(q, tx, added), e)
  {
    var outputs := AddElement(q, tx, added).outputs;
    if e.OutputElement? {
      var o := OutputOf(q, e);
      if HasOutput(tx.outputs, o) {
        var i :| 0 <= i < |tx.outputs| && tx.outputs[i].features == o.features && tx.outputs[i].commit == o.commit;
        assert outputs[i] == tx.outputs[i];
      } else {
        assert outputs[|tx.outputs|] == o;
      }
    }
  }

  lemma {:induction false} AddedAreOld(q: Order, tx: Transaction, elems: seq<Element>)
    ensures forall i | 0 <= i < |elems| :: !IsNew(q, AddAll(q, tx, elems), elems[i])
  {
    hide IsNew, AddElement;
    if elems != [] {
      var front, e := elems[..|elems| - 1], elems[|elems| - 1];
      AddedAreOld(q, tx, front);
      var before := AddAll(q, tx, front);
      forall i | 0 <= i < |elems| ensures !IsNew(q, AddAll(q, tx, elems), elems[i]) {
        assert i < |front| ==> elems[i] == front[i];
        OldAfterOne(q, before, e, elems[i]);
      }
    }
  }

  /** What is there already is not added again. */
  lemma {:induction false} NothingNew(q: Order, tx: Transaction, elems: seq<Element>)
    requires forall i | 0 <= i < |elems| :: !IsNew(q, tx, elems[i])
    ensures AddAll(q, tx, elems) == tx
  {
    hide IsNew;
    if elems != [] {
      NothingNew(q, tx, elems[..|elems| - 1]);
    }
  }

  /** Keys and offset make up the blinding factors of the transaction. */
  predicate Accounts(q: Order, keys: int, tx: Transaction) {
    Same(q, keys + tx.offset, BlindExcess(tx))
  }

  /** The transaction that a failed first round 1 leaves behind. */
  function LeftBehind(c: Curve, s: SlateValue, j: Joiner): Transaction {
    AddAll(c.q, UpdateKernel(s).tx, j.elems).(offset := j.random)
  }

  lemma Retried(c: Curve, s: SlateValue, j: Joiner, j': Joiner)
    requires s.tx.offset == 0 && j.random != 0
    requires Join(c, s, j).status == Failed && Join(c, Join(c, s, j).slate, j').status == Done
    ensures Join(c, s, j).slate.tx == LeftBehind(c, s, j)
    ensures Same(c.q, BlindSum(j.elems), j.random) || Same(c.q, j.nonce, 0)
    ensures var again := Join(c, Join(c, s, j).slate, j');
            && again.secKey == BlindSum(j'.elems) % c.q && again.slate.tx.offset == j.random
            && again.slate.tx == AddAll(c.q, LeftBehind(c, s, j), j'.elems)
  {
    var (built, blind) := AddTransactionElements(c, s, j.elems);
    AddAllKeepsRest(c.q, UpdateKernel(s).tx, j.elems);
    FailedRound1KeepsOffset(c, built, blind, j.nonce, j.id, j.message, j.random);
    SameMod(c.q, BlindSum(j.elems));
    AddAllKeepsRest(c.q, LeftBehind(c, s, j), j'.elems);
  }

  lemma LeftBehindBlinds(c: Curve, st: State, j: Joiner)
    requires BalanceInv(c, st) && st.secrets == [] && NewElements(c.q, st.slate.tx, j.elems)
    ensures Same(c.q, BlindExcess(LeftBehind(c, st.slate, j)), BlindSum(j.elems))
  {
    var q, tx, updated := c.q, st.slate.tx, UpdateKernel(st.slate).tx;
    assert SecretKeys(st.secrets) == [];
    hide Same, AddAll, BlindExcess, NewElements;
    SameBlinds(tx, updated);
    NewElementsKernels(q, tx, updated, j.elems);
    AddAllBlinds(q, updated, j.elems);
    SameBlinds(AddAll(q, updated, j.elems), LeftBehind(c, st.slate, j));
    SameSym(q, 0, BlindExcess(tx));
    SameRefl(q, BlindSum(j.elems));
    SameAdd(q, BlindExcess(tx), 0, BlindSum(j.elems), BlindSum(j.elems));
    SameTrans(q, BlindExcess(LeftBehind(c, st.slate, j)), BlindExcess(tx) + BlindSum(j.elems), BlindSum(j.elems));
  }

  /**
   Whoever tries the failed first round 1 again with the same inputs and outputs finds them there, keeps its
   whole key, and leaves keys and offset off the blinding factors by the offset: it never balances.
   */
  lemma RetryNeverBalances(c: Curve, st: State, j: Joiner, j': Joiner)
    requires BalanceInv(c, st) && st.secrets == [] && NewElements(c.q, st.slate.tx, j.elems) && 0 < j.random < c.q
    requires Join(c, st.slate, j).status == Failed && Join(c, Join(c, st.slate, j).slate, j').status == Done
    requires j'.elems == j.elems
    ensures var again := Join(c, Join(c, st.slate, j).slate, j');
            && Same(c.q, again.secKey + again.slate.tx.offset, BlindExcess(again.slate.tx) + j.random)
            && !Accounts(c.q, again.secKey, again.slate.tx)
  {
    var q, left, again := c.q, LeftBehind(c, st.slate, j), Join(c, Join(c, st.slate, j).slate, j');
    Retried(c, st.slate, j, j');
    LeftBehindBlinds(c, st, j);
    assert left == AddAll(q, UpdateKernel(st.slate).tx, j.elems).(offset := j.random);
    AddedAreOld(q, UpdateKernel(st.slate).tx, j.elems);
    NothingNew(q, left, j.elems);
    hide Join, LeftBehind, AddAll, BlindExcess;
    OffByRandom(q, BlindSum(j.elems), j.random, BlindExcess(left));
  }

  lemma OffByRandom(q: Order, blinds: int, random: int, excess: int)
    requires Same(q, excess, blinds) && 0 < random < q
    ensures Same(q, blinds % q + random, excess + random) && !Same(q, blinds % q + random, excess)
  {
    SameMod(q, blinds);
    SameAdd(q, blinds % q, excess, random, random);
    Cancel(q, excess, random, 0);
  }

  /**
   Whoever goes on with new inputs and outputs instead balances if and only if it was the key that failed,
   not the nonce: then the offset left behind is that key.
   */
  lemma RetryWithOthersIff(c: Curve, st: State, j: Joiner, j': Joiner)
    requires BalanceInv(c, st) && st.secrets == [] && NewElements(c.q, st.slate.tx, j.elems) && 0 < j.random < c.q
    requires Join(c, st.slate, j).status == Failed && Join(c, Join(c, st.slate, j).slate, j').status == Done
    requires NewElements(c.q, Join(c, st.slate, j).slate.tx, j'.elems)
    ensures var again := Join(c, Join(c, st.slate, j).slate, j');
            Accounts(c.q, again.secKey, again.slate.tx) <==> Same(c.q, BlindSum(j.elems), j.random)
  {
    var q, left, again := c.q, LeftBehind(c, st.slate, j), Join(c, Join(c, st.slate, j).slate, j');
    Retried(c, st.slate, j, j');
    LeftBehindBlinds(c, st, j);
    hide Join, LeftBehind, AddAll, BlindExcess, NewElements;
    AddAllBlinds(q, left, j'.elems);
    KeyAsOffset(q, BlindSum(j.elems), BlindSum(j'.elems), j.random, BlindExcess(left), BlindExcess(again.slate.tx));
  }

  lemma KeyAsOffset(q: Order, first: int, second: int, random: int, before: int, after: int)
    requires Same(q, before, first) && Same(q, after, before + second)
    ensures Same(q, second % q + random, after) <==> Same(q, first, random)
  {
    SameMod(q, second);
    SameAdd(q, before, first, second, second);
    SameAdd(q, second % q, second, random, random);
    assert Same(q, after, second + first) && Same(q, second % q + random, second + random);
    Cancel(q, second, random, first);
  }

  // ----- the excess -----

  lemma NegateCommit(q: Order, a: int, v: int)
    ensures Negate(q, Commit(q, a, v)) == Commit(q, -a, -v)
  {
    SameMod(q, a);
    SameMod(q, v);
    SameSub(q, 0, 0, a % q, a);
    SameSub(q, 0, 0, v % q, v);
  }

  lemma CommitSums(q: Order, a: int, b: int, v: int, w: int, overage: int)
    ensures AddPoints(q, AddPoints(q, Commit(q, a, v), Commit(q, 0, overage)), Negate(q, Commit(q, b, w)))
            == Commit(q, a - b, v + overage - w)
  {
    hide AddPoints, Negate, Commit;
    AddCommits(q, a, v, 0, overage);
    NegateCommit(q, b, w);
    AddCommits(q, a, v + overage, -b, -w);
  }

  lemma OneCoefficient(q: Order, x: int, y: int, z: int)
    ensures ((x % q + y % q) % q + (-(z % q)) % q) % q == (x + y - z) % q
  {
    SameMod(q, x);
    SameMod(q, y);
    SameMod(q, z);
    SameAdd(q, x % q, x, y % q, y);
    SameMod(q, x % q + y % q);
    SameSub(q, 0, 0, z % q, z);
    SameMod(q, -(z % q));
    SameAdd(q, (x % q + y % q) % q, x + y, (-(z % q)) % q, -z);
  }

  /** The one fee for which there is no excess: 2^63, which the cast makes the least i64. */
  predicate FeeOverflows(tx: Transaction) {
    TxFee(tx.kernels) == 0x8000_0000_0000_0000
  }

  lemma FeeCast(fee: nat)
    ensures AsI64(fee) == I64_MIN <==> fee == 0x8000_0000_0000_0000
  {
  }

  /** The commitments of a transaction sum to its blinding excess and its value gap. */
  lemma TxExcess(q: Order, tx: Transaction)
    ensures SumCommitments(q, tx, AsI64(TxFee(tx.kernels)))
            == (if FeeOverflows(tx) || (Same(q, BlindExcess(tx), 0) && Same(q, ValueGap(tx), 0)) then None
                else Some(Commit(q, BlindExcess(tx), ValueGap(tx))))
  {
    hide AddPoints, Negate, SumPoints, TxFee, AsI64;
    FeeCast(TxFee(tx.kernels));
    var ins, outs := InputCommits(tx.inputs), OutputCommits(tx.outputs);
    SumOfCommitments(q, outs);
    SumOfCommitments(q, ins);
    CommitSums(q, Blinds(outs), Blinds(ins), Values(outs), Values(ins), AsI64(TxFee(tx.kernels)));
  }

  /** Taking the offset out of the excess leaves the sum of the participants' keys. */
  lemma ExcessIsKeySum(c: Curve, st: State)
    requires Inv(c, st) && PubBlindSum(c, st.slate).Some?
    ensures var tx := st.slate.tx;
            CalcExcess(c, st.slate)
            == (if FeeOverflows(tx) || (Same(c.q, BlindExcess(tx), 0) && Same(c.q, ValueGap(tx), 0)) then None
                else Some(Commit(c.q, Sum(SecretKeys(st.secrets)), ValueGap(tx))))
  {
    var q, tx := c.q, st.slate.tx;
    var total := Sum(SecretKeys(st.secrets));
    TxExcess(q, tx);
    PublicSums(c, st);
    assert KeyPoint(q, total) != IDENTITY;
    assert total % q != 0;
    OneCoefficient(q, BlindExcess(tx), 0, tx.offset);
    OneCoefficient(q, ValueGap(tx), 0, 0);
    SameSub(q, total + tx.offset, BlindExcess(tx), tx.offset, tx.offset);
    hide AddPoints, SumPoints, SumCommitments, ValueGap, BlindExcess;
    SubtractOffset(q, BlindExcess(tx), ValueGap(tx), tx.offset);
  }

  lemma SubtractOffset(q: Order, blind: int, value: int, offset: int)
    ensures AddPoints(q, Commit(q, blind, value), Negate(q, Commit(q, offset, 0))) == Commit(q, blind - offset, value)
  {
    hide AddPoints;
    NegateCommit(q, offset, 0);
    AddCommits(q, blind, value, -offset, 0);
  }

  // ----- finalizing -----

  function FinalKernel(c: Curve, s: SlateValue): TxKernel
    requires CalcExcess(c, s).Some?
  {
    TxKernel(FeaturesOf(s), CalcExcess(c, s).value, FinalizeSignature(c, s).1)
  }

  /** The challenge under which the final signature is checked against a key. */
  function FinalChallenge(c: Curve, s: SlateValue, key: Point): int {
    c.challenge(FinalizeSignature(c, s).1.nonce, key, FeaturesOf(s))
  }

  /** A reachable state in which somebody takes part and all who do have signed. */
  ghost predicate ReadyToFinalize(c: Curve, s: SlateValue, steps: seq<Step>) {
    && Fresh(s)
    && Run(c, State(s, []), steps).Some?
    && var t := Run(c, State(s, []), steps).value.slate;
       t.participantData != [] && AllSigned(t)
  }

  lemma ReadyState(c: Curve, s: SlateValue, steps: seq<Step>)
    requires ReadyToFinalize(c, s, steps)
    ensures var st := Run(c, State(s, []), steps).value;
            && Inv(c, st)
            && FinalizeSignature(c, st.slate).0 == Done
            && PubBlindSum(c, st.slate) == Some(KeyPoint(c.q, Sum(SecretKeys(st.secrets))))
            && st.slate.tx.kernels == [WithFeatures(FeaturesOf(st.slate))]
  {
    hide Verifies;
    RunKeeps(c, s, steps);
    FinalSignatureVerifies(c, s, steps);
  }

  /** The final kernel verifies exactly when the challenge fits the excess and annihilates the value gap. */
  lemma FinalKernelVerifiesIff(c: Curve, s: SlateValue, steps: seq<Step>)
    requires ReadyToFinalize(c, s, steps)
    requires CalcExcess(c, Run(c, State(s, []), steps).value.slate).Some?
    ensures var st := Run(c, State(s, []), steps).value;
            var x := Sum(SecretKeys(st.secrets));
            var e := FinalChallenge(c, st.slate, KeyPoint(c.q, x));
            var e' := FinalChallenge(c, st.slate, CalcExcess(c, st.slate).value);
            KernelVerifies(c, FinalKernel(c, st.slate)) <==>
              Same(c.q, e * x, e' * x) && Same(c.q, e' * ValueGap(st.slate.tx), 0)
  {
    ReadyState(c, s, steps);
    FinalSignatureVerifies(c, s, steps);
    hide Run, Verifies, FinalizeSignature, CalcExcess, Inv, ValueGap, SumPoints, AllSigned, PubBlindSum, Same;
    var st := Run(c, State(s, []), steps).value;
    ExcessIsKeySum(c, st);
    var x, k := Sum(SecretKeys(st.secrets)), Sum(SecretNonces(st.secrets));
    var e := FinalChallenge(c, st.slate, KeyPoint(c.q, x));
    var e' := FinalChallenge(c, st.slate, CalcExcess(c, st.slate).value);
    VerifiesIff(c.q, e, e', x, k, x, ValueGap(st.slate.tx));
  }

  /**
   When the amounts balance and the fee is not 2^63, the excess is the sum of the public keys and the kernel
   verifies, so that only the fee check and the chain's validation stand between the signed slate and the
   final one. At a fee of 2^63 finalizing fails.
   */
  lemma BalancedFinalizes(c: Curve, s: SlateValue, steps: seq<Step>)
    requires ReadyToFinalize(c, s, steps)
    requires var tx := Run(c, State(s, []), steps).value.slate.tx;
             Same(c.q, ValueGap(tx), 0) && !Same(c.q, BlindExcess(tx), 0)
    ensures var t := Run(c, State(s, []), steps).value.slate;
            if FeeOverflows(t.tx) then Finalize(c, t) == (Failed, t)
            else
              && CalcExcess(c, t).Some?
              && CalcExcess(c, t) == PubBlindSum(c, t)
              && KernelVerifies(c, FinalKernel(c, t))
              && var final := t.tx.(kernels := [FinalKernel(c, t)]);
                 Finalize(c, t) == (if CheckFees(t) && c.validate(final) then (Done, t.(tx := final)) else (Failed, t))
  {
    ReadyState(c, s, steps);
    var st := Run(c, State(s, []), steps).value;
    ExcessIsKeySum(c, st);
    if !FeeOverflows(st.slate.tx) {
      FinalKernelVerifiesIff(c, s, steps);
      hide Run, KernelVerifies, FinalizeSignature, CalcExcess, Inv, ReadyToFinalize, AllSigned, PubBlindSum, CheckFees;
      var gap := ValueGap(st.slate.tx);
      var e' := FinalChallenge(c, st.slate, CalcExcess(c, st.slate).value);
      SameMul(c.q, e', gap, 0);
    }
  }

  /** When they do not balance, finalizing succeeds only if the challenge annihilates the gap. */
  lemma UnbalancedFails(c: Curve, s: SlateValue, steps: seq<Step>)
    requires ReadyToFinalize(c, s, steps)
    requires var t := Run(c, State(s, []), steps).value.slate;
             CalcExcess(c, t).Some? ==>
               !Same(c.q, FinalChallenge(c, t, CalcExcess(c, t).value) * ValueGap(t.tx), 0)
    ensures var t := Run(c, State(s, []), steps).value.slate;
            Finalize(c, t) == (Failed, t)
  {
    ReadyState(c, s, steps);
    if CalcExcess(c, Run(c, State(s, []), steps).value.slate).Some? {
      FinalKernelVerifiesIff(c, s, steps);
    }
    hide Run, KernelVerifies, FinalizeSignature, CalcExcess, Inv, ReadyToFinalize, AllSigned, PubBlindSum, CheckFees;
  }
}
