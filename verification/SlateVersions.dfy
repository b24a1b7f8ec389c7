/** The version 3 form of a slate, in which it travels, and the conversions to and from it. */
module SlateVersions {
  import opened Common
  import opened Scalars
  import opened Slates

  datatype CompatKernelFeatures = PlainV3 | CoinbaseV3 | HeightLockedV3

  datatype TxKernelV3 = TxKernelV3(
    features: CompatKernelFeatures,
    fee: nat,
    lockHeight: nat,
    excess: Point,
    excessSig: Signature)

  datatype InputV3 = InputV3(features: OutputFeatures, commit: Point)

  datatype OutputV3 = OutputV3(features: OutputFeatures, commit: Point, proof: nat)

  datatype TransactionV3 = TransactionV3(
    offset: int,
    inputs: seq<InputV3>,
    outputs: seq<OutputV3>,
    kernels: seq<TxKernelV3>)

  datatype ParticipantDataV3 = ParticipantDataV3(
    id: nat,
    publicBlindExcess: Point,
    publicNonce: Point,
    partSig: Option<Signature>,
    message: Option<string>,
    messageSig: Option<Signature>)

  datatype SlateV3 = SlateV3(
    versionInfo: VersionInfo,
    numParticipants: nat,
    id: nat,
    tx: TransactionV3,
    amount: nat,
    fee: nat,
    height: nat,
    lockHeight: nat,
    ttlCutoffHeight: Option<nat>,
    participantData: seq<ParticipantDataV3>,
    paymentProof: Option<PaymentInfo>)

  function InputToV3(i: Input): InputV3 {
    InputV3(i.features, i.commit)
  }

  function InputFromV3(i: InputV3): Input {
    Input(i.features, i.commit)
  }

  function OutputToV3(o: Output): OutputV3 {
    OutputV3(o.features, o.commit, o.proof)
  }

  function OutputFromV3(o: OutputV3): Output {
    Output(o.features, o.commit, o.proof)
  }

  function KernelToV3(k: TxKernel): TxKernelV3 {
    match k.features
    case Plain(fee) => TxKernelV3(PlainV3, fee, 0, k.excess, k.excessSig)
    case Coinbase => TxKernelV3(CoinbaseV3, 0, 0, k.excess, k.excessSig)
    case HeightLocked(fee, lockHeight) => TxKernelV3(HeightLockedV3, fee, lockHeight, k.excess, k.excessSig)
  }

  function KernelFromV3(k: TxKernelV3): TxKernel {
    var features := match k.features
      case PlainV3 => Plain(k.fee)
      case CoinbaseV3 => Coinbase
      case HeightLockedV3 => HeightLocked(k.fee, k.lockHeight);
    TxKernel(features, k.excess, k.excessSig)
  }

  function ParticipantToV3(p: ParticipantData): ParticipantDataV3 {
    ParticipantDataV3(p.id, p.publicBlindExcess, p.publicNonce, p.partSig, p.message, p.messageSig)
  }

  function ParticipantFromV3(p: ParticipantDataV3): ParticipantData {
    ParticipantData(p.id, p.publicBlindExcess, p.publicNonce, p.partSig, p.message, p.messageSig)
  }

  function Map<A, B>(f: A -> B, xs: seq<A>): (ys: seq<B>)
    ensures |ys| == |xs| && forall i | 0 <= i < |xs| :: ys[i] == f(xs[i])
  {
    seq(|xs|, i requires 0 <= i < |xs| => f(xs[i]))
  }

  function ToV3(s: SlateValue): SlateV3 {
    SlateV3(s.versionInfo, s.numParticipants, s.id,
            TransactionV3(s.tx.offset, Map(InputToV3, s.tx.inputs), Map(OutputToV3, s.tx.outputs),
                          Map(KernelToV3, s.tx.kernels)),
            s.amount, s.fee, s.height, s.lockHeight, s.ttlCutoffHeight,
            Map(ParticipantToV3, s.participantData), s.paymentProof)
  }

  function FromV3(s: SlateV3): SlateValue {
    SlateValue(s.versionInfo, s.numParticipants, s.id,
               Transaction(s.tx.offset, Map(InputFromV3, s.tx.inputs), Map(OutputFromV3, s.tx.outputs),
                           Map(KernelFromV3, s.tx.kernels)),
               s.amount, s.fee, s.height, s.lockHeight, s.ttlCutoffHeight,
               Map(ParticipantFromV3, s.participantData), s.paymentProof)
  }

  /** What travels under which name. */
  lemma TravelsAs(s: SlateValue)
    ensures var v := ToV3(s);
            && v.amount == s.amount && v.fee == s.fee && v.height == s.height && v.lockHeight == s.lockHeight
            && v.id == s.id && v.numParticipants == s.numParticipants && v.versionInfo == s.versionInfo
            && v.ttlCutoffHeight == s.ttlCutoffHeight && v.paymentProof == s.paymentProof && v.tx.offset == s.tx.offset
            && |v.tx.kernels| == |s.tx.kernels| && |v.participantData| == |s.participantData|
            && (forall i | 0 <= i < |s.tx.kernels| ::
                  var (k, k') := (s.tx.kernels[i], v.tx.kernels[i]);
                  && k'.excess == k.excess && k'.excessSig == k.excessSig
                  && (k.features.Plain? ==> k'.features == PlainV3 && k'.fee == k.features.fee)
                  && (k.features.HeightLocked? ==>
                        && k'.features == HeightLockedV3
                        && k'.fee == k.features.fee && k'.lockHeight == k.features.lockHeight)
                  && (k.features.Coinbase? ==> k'.features == CoinbaseV3))
            && (forall i | 0 <= i < |s.participantData| ::
                  var (p, p') := (s.participantData[i], v.participantData[i]);
                  && p'.id == p.id && p'.publicBlindExcess == p.publicBlindExcess && p'.publicNonce == p.publicNonce
                  && p'.partSig == p.partSig && p'.message == p.message && p'.messageSig == p.messageSig)
  {
  }

  /** Nothing of a slate is lost on the way. */
  lemma RoundTrip(s: SlateValue)
    ensures FromV3(ToV3(s)) == s
  {
    assert FromV3(ToV3(s)).tx.inputs == s.tx.inputs;
    assert FromV3(ToV3(s)).tx.outputs == s.tx.outputs;
    assert FromV3(ToV3(s)).tx.kernels == s.tx.kernels;
    assert FromV3(ToV3(s)).participantData == s.participantData;
  }

  /** A kernel in which the fields that its features do not use are zero. */
  predicate Canonical(k: TxKernelV3) {
    && (k.features.PlainV3? ==> k.lockHeight == 0)
    && (k.features.CoinbaseV3? ==> k.fee == 0 && k.lockHeight == 0)
  }

  /** The other way round, a travelling slate survives exactly when its unused kernel fields are zero. */
  lemma RoundTripV3(s: SlateV3)
    ensures ToV3(FromV3(s)) == s <==> forall i | 0 <= i < |s.tx.kernels| :: Canonical(s.tx.kernels[i])
  {
    var t := ToV3(FromV3(s));
    assert t.tx.inputs == s.tx.inputs && t.tx.outputs == s.tx.outputs;
    assert t.participantData == s.participantData;
    assert forall i | 0 <= i < |s.tx.kernels| :: t.tx.kernels[i] == s.tx.kernels[i] <==> Canonical(s.tx.kernels[i]);
    assert t.tx.kernels == s.tx.kernels <==> forall i | 0 <= i < |s.tx.kernels| :: t.tx.kernels[i] == s.tx.kernels[i];
  }
}
