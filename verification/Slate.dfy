/**
 The slate: what each protocol operation computes, as functions on slate values. The object whose
 methods carry the operations out is in SlateObject.dfy; what runs of the protocol keep is in
 SlateProtocol.dfy.
 */
module Slates {
  import opened Common
  import opened Scalars

  datatype KernelFeatures =
    | Plain(fee: nat)
    | Coinbase
    | HeightLocked(fee: nat, lockHeight: nat)

  datatype Signature = Signature(nonce: Point, s: int)

  datatype TxKernel = TxKernel(features: KernelFeatures, excess: Point, excessSig: Signature)

  datatype OutputFeatures = PlainOutput | CoinbaseOutput

  /** The output that is spent. */
  datatype Input = Input(features: OutputFeatures, commit: Point)

  /** A range proof is a number here: it is passed on and never looked into. */
  datatype Output = Output(features: OutputFeatures, commit: Point, proof: nat)

  datatype Transaction = Transaction(
    offset: int,
    inputs: seq<Input>,
    outputs: seq<Output>,
    kernels: seq<TxKernel>)

  datatype ParticipantData = ParticipantData(
    id: nat,
    publicBlindExcess: Point,
    publicNonce: Point,
    partSig: Option<Signature>,
    message: Option<string>,
    messageSig: Option<Signature>)

  datatype PaymentInfo = PaymentInfo(sender: nat, receiver: nat, receiverSignature: Option<nat>)

  datatype VersionInfo = VersionInfo(version: nat, origVersion: nat, blockHeaderVersion: nat)

  datatype SlateValue = SlateValue(
    versionInfo: VersionInfo,
    numParticipants: nat,
    id: nat,
    tx: Transaction,
    amount: nat,
    fee: nat,
    height: nat,
    lockHeight: nat,
    ttlCutoffHeight: Option<nat>,
    participantData: seq<ParticipantData>,
    paymentProof: Option<PaymentInfo>)

  /** The group, the challenge hash, the signature put on messages, and the chain's own validation. */
  datatype Curve = Curve(
    q: Order,
    challenge: (Point, Point, KernelFeatures) -> int,
    signMessage: (string, int) -> Signature,
    validate: Transaction -> bool)

  /** Done: Ok. Failed: an error value is returned. Aborted: the program panics. */
  datatype Status = Done | Failed | Aborted

  // ----- transactions -----

  const NO_SIGNATURE := Signature(IDENTITY, 0)

  function WithFeatures(features: KernelFeatures): TxKernel {
    TxKernel(features, IDENTITY, NO_SIGNATURE)
  }

  /** The fee of a transaction: a saturating sum over its fee-carrying kernels. */
  function TxFee(kernels: seq<TxKernel>): nat {
    if kernels == [] then 0 else
      var before := TxFee(kernels[..|kernels| - 1]);
      match kernels[|kernels| - 1].features
      case Coinbase => before
      case Plain(fee) => if before + fee > U64_MAX then U64_MAX else before + fee
      case HeightLocked(fee, _) => if before + fee > U64_MAX then U64_MAX else before + fee
  }

  const MILLI_EPIC: nat := 100_000

  /** The fee that the transaction's weight demands. */
  function RequiredFee(tx: Transaction): nat {
    var weight := 4 * |tx.outputs| + |tx.kernels| - |tx.inputs|;
    (if weight < 1 then 1 else weight) * MILLI_EPIC
  }

  /** A u64 cast to i64. */
  function AsI64(n: nat): int {
    if n < 0x8000_0000_0000_0000 then n else n - 0x1_0000_0000_0000_0000
  }

  datatype Element =
    | InputElement(features: OutputFeatures, blind: int, value: nat)
    | OutputElement(blind: int, value: nat, proof: nat)

  /** Inputs and outputs are told apart by features and commitment; range proofs are not compared. */
  predicate HasOutput(outputs: seq<Output>, o: Output) {
    exists i | 0 <= i < |outputs| :: outputs[i].features == o.features && outputs[i].commit == o.commit
  }

  function InputOf(q: Order, e: Element): Input
    requires e.InputElement?
  {
    Input(e.features, Commit(q, e.blind, e.value))
  }

  function OutputOf(q: Order, e: Element): Output
    requires e.OutputElement?
  {
    Output(PlainOutput, Commit(q, e.blind, e.value), e.proof)
  }

  predicate IsNew(q: Order, tx: Transaction, e: Element) {
    match e
    case InputElement(_, _, _) => InputOf(q, e) !in tx.inputs
    case OutputElement(_, _, _) => !HasOutput(tx.outputs, OutputOf(q, e))
  }

  /** What is already there is not added again; the order of inputs and outputs is immaterial here. */
  function AddElement(q: Order, tx: Transaction, e: Element): Transaction {
    if !IsNew(q, tx, e) then tx else
      match e
      case InputElement(_, _, _) => tx.(inputs := tx.inputs + [InputOf(q, e)])
      case OutputElement(_, _, _) => tx.(outputs := tx.outputs + [OutputOf(q, e)])
  }

  function AddAll(q: Order, tx: Transaction, elems: seq<Element>): Transaction {
    if elems == [] then tx else AddElement(q, AddAll(q, tx, elems[..|elems| - 1]), elems[|elems| - 1])
  }

  function BlindOf(e: Element): int {
    match e
    case InputElement(_, b, _) => -b
    case OutputElement(b, _, _) => b
  }

  function BlindSum(elems: seq<Element>): int {
    if elems == [] then 0 else BlindSum(elems[..|elems| - 1]) + BlindOf(elems[|elems| - 1])
  }

  // ----- kernels -----

  function FeaturesOf(s: SlateValue): KernelFeatures {
    if s.lockHeight == 0 then Plain(s.fee) else HeightLocked(s.fee, s.lockHeight)
  }

  function UpdateKernel(s: SlateValue): SlateValue {
    s.(tx := s.tx.(kernels := [WithFeatures(FeaturesOf(s))]))
  }

  /** Replaces the kernel, then adds the elements; the second result is the blinding factor. */
  function AddTransactionElements(c: Curve, s: SlateValue, elems: seq<Element>): (SlateValue, int) {
    var updated := UpdateKernel(s);
    (updated.(tx := AddAll(c.q, updated.tx, elems)), BlindSum(elems) % c.q)
  }

  // ----- round 1 -----

  function GenerateOffset(c: Curve, s: SlateValue, secKey: int, random: int): (SlateValue, int) {
    (s.(tx := s.tx.(offset := random)), (secKey - random) % c.q)
  }

  /** Fails on a key or nonce that has no public key. */
  function AddParticipantInfo(c: Curve, s: SlateValue, secKey: int, secNonce: int, id: nat, message: Option<string>)
    : (Status, SlateValue)
  {
    if secKey % c.q == 0 || secNonce % c.q == 0 then (Failed, s) else
      var messageSig := if message.Some? then Some(c.signMessage(message.value, secKey)) else None;
      var p := ParticipantData(id, KeyPoint(c.q, secKey), KeyPoint(c.q, secNonce), None, message, messageSig);
      (Done, s.(participantData := s.participantData + [p]))
  }

  datatype Round1 = Round1(status: Status, slate: SlateValue, secKey: int)

  /** Whoever comes first splits the offset out of its key; the offset stays set when the rest fails. */
  function FillRound1(c: Curve, s: SlateValue, secKey: int, secNonce: int, id: nat, message: Option<string>,
                      random: int)
    : Round1
  {
    var (split, key) := if s.tx.offset == 0 then GenerateOffset(c, s, secKey, random) else (s, secKey);
    var (status, filled) := AddParticipantInfo(c, split, key, secNonce, id, message);
    Round1(status, filled, key)
  }

  // ----- round 2 -----

  function Nonces(ps: seq<ParticipantData>): (r: seq<Point>)
    ensures |r| == |ps|
  {
    seq(|ps|, i requires 0 <= i < |ps| => ps[i].publicNonce)
  }

  function Keys(ps: seq<ParticipantData>): (r: seq<Point>)
    ensures |r| == |ps|
  {
    seq(|ps|, i requires 0 <= i < |ps| => ps[i].publicBlindExcess)
  }

  /** None when the keys do not add up to a public key. */
  function Combine(q: Order, points: seq<Point>): Option<Point> {
    var sum := SumPoints(q, points);
    if sum == IDENTITY then None else Some(sum)
  }

  function PubNonceSum(c: Curve, s: SlateValue): Option<Point> {
    Combine(c.q, Nonces(s.participantData))
  }

  function PubBlindSum(c: Curve, s: SlateValue): Option<Point> {
    Combine(c.q, Keys(s.participantData))
  }

  /** k + e·x, published with k·G. */
  function PartialSignature(q: Order, e: int, key: int, nonce: int): Signature {
    Signature(KeyPoint(q, nonce), (nonce + e * key) % q)
  }

  /** s·G = R + e·P. */
  predicate Verifies(q: Order, e: int, sig: Signature, key: Point) {
    KeyPoint(q, sig.s) == AddPoints(q, sig.nonce, Scale(q, e, key))
  }

  function ChallengeOf(c: Curve, s: SlateValue): Option<int> {
    match (PubNonceSum(c, s), PubBlindSum(c, s))
    case (Some(r), Some(p)) => Some(c.challenge(r, p, FeaturesOf(s)))
    case _ => None
  }

  predicate PartSigVerifies(c: Curve, s: SlateValue, p: ParticipantData) {
    p.partSig.Some? ==>
      ChallengeOf(c, s).Some? && Verifies(c.q, ChallengeOf(c, s).value, p.partSig.value, p.publicBlindExcess)
  }

  predicate VerifyPartSigs(c: Curve, s: SlateValue) {
    forall i | 0 <= i < |s.participantData| :: PartSigVerifies(c, s, s.participantData[i])
  }

  predicate CheckFees(s: SlateValue) {
    var fee := RequiredFee(s.tx);
    fee <= TxFee(s.tx.kernels) && fee <= s.amount + s.fee
  }

  /** The first of the first n participants with this id, or else where the search ends. */
  function IndexOf(ps: seq<ParticipantData>, id: nat, n: nat): (i: nat)
    requires n <= |ps|
    ensures i <= n && (i < n ==> ps[i].id == id)
    ensures forall j | 0 <= j < i :: ps[j].id != id
  {
    if n == 0 then 0 else
      var i := IndexOf(ps, id, n - 1);
      if i < n - 1 then i
      else if ps[n - 1].id == id then n - 1
      else n
  }

  /** The search stops at the participant; running past the recorded participants aborts. */
  function SetPartSig(s: SlateValue, id: nat, sig: Signature): (Status, SlateValue) {
    var ps := s.participantData;
    var n := if s.numParticipants <= |ps| then s.numParticipants else |ps|;
    var i := IndexOf(ps, id, n);
    if i < n then (Done, s.(participantData := ps[i := ps[i].(partSig := Some(sig))]))
    else if n < s.numParticipants then (Aborted, s)
    else (Done, s)
  }

  function FillRound2(c: Curve, s: SlateValue, secKey: int, secNonce: int, id: nat): (Status, SlateValue) {
    if !CheckFees(s) || !VerifyPartSigs(c, s) || ChallengeOf(c, s).None? then (Failed, s) else
      SetPartSig(s, id, PartialSignature(c.q, ChallengeOf(c, s).value, secKey, secNonce))
  }

  // ----- finalizing -----

  function PartSigScalars(ps: seq<ParticipantData>): (r: seq<int>)
    requires forall i | 0 <= i < |ps| :: ps[i].partSig.Some?
    ensures |r| == |ps|
  {
    seq(|ps|, i requires 0 <= i < |ps| => ps[i].partSig.value.s)
  }

  predicate AllSigned(s: SlateValue) {
    forall i | 0 <= i < |s.participantData| :: s.participantData[i].partSig.Some?
  }

  /** s is the sum of the partial scalars, published with the nonce sum. */
  function AddSignatures(q: Order, scalars: seq<int>, nonceSum: Point): Signature {
    Signature(nonceSum, Sum(scalars) % q)
  }

  function FinalizeSignature(c: Curve, s: SlateValue): (Status, Signature) {
    if !VerifyPartSigs(c, s) then (Failed, NO_SIGNATURE)
    else if !AllSigned(s) then (Aborted, NO_SIGNATURE)
    else if ChallengeOf(c, s).None? then (Failed, NO_SIGNATURE)
    else
      var sig := AddSignatures(c.q, PartSigScalars(s.participantData), PubNonceSum(c, s).value);
      var e := c.challenge(sig.nonce, PubBlindSum(c, s).value, FeaturesOf(s));
      if Verifies(c.q, e, sig, PubBlindSum(c, s).value) then (Done, sig) else (Failed, NO_SIGNATURE)
  }

  function InputCommits(inputs: seq<Input>): (r: seq<Point>)
    ensures |r| == |inputs|
  {
    seq(|inputs|, i requires 0 <= i < |inputs| => inputs[i].commit)
  }

  function OutputCommits(outputs: seq<Output>): (r: seq<Point>)
    ensures |r| == |outputs|
  {
    seq(|outputs|, i requires 0 <= i < |outputs| => outputs[i].commit)
  }

  function Negate(q: Order, p: Point): Point {
    Commit(q, -p.blind, -p.value)
  }

  const I64_MIN := -0x8000_0000_0000_0000

  /**
   Outputs plus the overage minus inputs. The least i64 has no absolute value to commit to, and a sum that
   is the identity is an error of the library.
   */
  function SumCommitments(q: Order, tx: Transaction, overage: int): Option<Point> {
    if overage == I64_MIN then None else
      var sum := AddPoints(q, AddPoints(q, SumPoints(q, OutputCommits(tx.outputs)), Commit(q, 0, overage)),
                           Negate(q, SumPoints(q, InputCommits(tx.inputs))));
      if sum == IDENTITY then None else Some(sum)
  }

  function CalcExcess(c: Curve, s: SlateValue): Option<Point> {
    match SumCommitments(c.q, s.tx, AsI64(TxFee(s.tx.kernels)))
    case None => None
    case Some(txExcess) =>
      var excess := AddPoints(c.q, txExcess, Negate(c.q, Commit(c.q, s.tx.offset, 0)));
      if excess == IDENTITY then None else Some(excess)
  }

  /** The excess serves as the public key. */
  predicate KernelVerifies(c: Curve, k: TxKernel) {
    Verifies(c.q, c.challenge(k.excessSig.nonce, k.excess, k.features), k.excessSig, k.excess)
  }

  function FinalizeTransaction(c: Curve, s: SlateValue, sig: Signature): (Status, SlateValue) {
    if !CheckFees(s) || CalcExcess(c, s).None? then (Failed, s)
    else if |s.tx.kernels| != 1 then (Aborted, s)
    else
      var kernel := s.tx.kernels[0].(excess := CalcExcess(c, s).value, excessSig := sig);
      var final := s.tx.(kernels := [kernel]);
      if KernelVerifies(c, kernel) && c.validate(final) then (Done, s.(tx := final)) else (Failed, s)
  }

  function Finalize(c: Curve, s: SlateValue): (Status, SlateValue) {
    var (status, sig) := FinalizeSignature(c, s);
    if status == Done then FinalizeTransaction(c, s, sig) else (status, s)
  }
}
