/** The slate as the object that wallets pass around and update; each method carries out one operation. */
module SlateObject {
  import opened Common
  import opened Scalars
  import opened Slates

  class Slate {
    var versionInfo: VersionInfo
    var numParticipants: nat
    var id: nat
    var tx: Transaction
    var amount: nat
    var fee: nat
    var height: nat
    var lockHeight: nat
    var ttlCutoffHeight: Option<nat>
    var participantData: seq<ParticipantData>
    var paymentProof: Option<PaymentInfo>

    function Value(): SlateValue
      reads this
    {
      SlateValue(versionInfo, numParticipants, id, tx, amount, fee, height, lockHeight, ttlCutoffHeight,
                 participantData, paymentProof)
    }

    constructor Blank(participants: nat, uuid: nat, version: VersionInfo)
      ensures numParticipants == participants && id == uuid && versionInfo == version
      ensures tx == Transaction(0, [], [], []) && participantData == []
      ensures amount == fee == height == lockHeight == 0 && ttlCutoffHeight == None && paymentProof == None
    {
      versionInfo, numParticipants, id := version, participants, uuid;
      tx := Transaction(0, [], [], []);
      amount, fee, height, lockHeight := 0, 0, 0, 0;
      ttlCutoffHeight, participantData, paymentProof := None, [], None;
    }

    method ReplaceKernel()
      modifies this`tx
      ensures Value() == UpdateKernel(old(Value()))
      ensures tx.kernels == [TxKernel(if lockHeight == 0 then Plain(fee) else HeightLocked(fee, lockHeight),
                                      IDENTITY, NO_SIGNATURE)]
    {
      tx := tx.(kernels := [WithFeatures(FeaturesOf(Value()))]);
    }

    method AddElements(c: Curve, elems: seq<Element>) returns (blind: int)
      modifies this`tx
      ensures (Value(), blind) == AddTransactionElements(c, old(Value()), elems)
      ensures tx.kernels == [TxKernel(if lockHeight == 0 then Plain(fee) else HeightLocked(fee, lockHeight),
                                      IDENTITY, NO_SIGNATURE)]
    {
      ReplaceKernel();
      ghost var start := tx;
      var sum := 0;
      var k := 0;
      assert elems[..0] == [];
      while k < |elems|
        invariant 0 <= k <= |elems|
        invariant Value() == UpdateKernel(old(Value())).(tx := tx)
        invariant tx.kernels == start.kernels
        invariant tx == AddAll(c.q, start, elems[..k]) && sum == BlindSum(elems[..k])
      {
        assert elems[..k + 1][..k] == elems[..k];
        tx := AddElement(c.q, tx, elems[k]);
        sum := sum + BlindOf(elems[k]);
        k := k + 1;
      }
      assert elems[..k] == elems;
      blind := sum % c.q;
    }

    method SplitOffset(c: Curve, secKey: int, random: int) returns (key: int)
      modifies this`tx
      ensures (Value(), key) == GenerateOffset(c, old(Value()), secKey, random)
    {
      tx := tx.(offset := random);
      key := (secKey - tx.offset) % c.q;
    }

    method AddParticipant(c: Curve, secKey: int, secNonce: int, pid: nat, message: Option<string>)
      returns (status: Status)
      modifies this`participantData
      ensures (status, Value()) == AddParticipantInfo(c, old(Value()), secKey, secNonce, pid, message)
      ensures status == Done <==> secKey % c.q != 0 && secNonce % c.q != 0
      ensures status == if status == Done then Done else Failed
      ensures participantData == old(participantData) + if status != Done then [] else
                [ParticipantData(pid, Point(secKey % c.q, 0), Point(secNonce % c.q, 0), None, message,
                                 if message.Some? then Some(c.signMessage(message.value, secKey)) else None)]
    {
      if secKey % c.q == 0 {
        return Failed;
      }
      var pubKey := KeyPoint(c.q, secKey);
      if secNonce % c.q == 0 {
        return Failed;
      }
      var pubNonce := KeyPoint(c.q, secNonce);
      var messageSig := None;
      if message.Some? {
        messageSig := Some(c.signMessage(message.value, secKey));
      }
      participantData := participantData + [ParticipantData(pid, pubKey, pubNonce, None, message, messageSig)];
      status := Done;
    }

    /** The caller's secret key comes back reduced when the offset was split out of it. */
    method FillFirstRound(c: Curve, secKey: int, secNonce: int, pid: nat, message: Option<string>, random: int)
      returns (status: Status, key: int)
      modifies this`tx, this`participantData
      ensures Round1(status, Value(), key) == FillRound1(c, old(Value()), secKey, secNonce, pid, message, random)
      ensures tx == old(tx).(offset := if old(tx).offset == 0 then random else old(tx).offset)
      ensures key == if old(tx).offset == 0 then (secKey - random) % c.q else secKey
      ensures status == if key % c.q != 0 && secNonce % c.q != 0 then Done else Failed
    {
      key := secKey;
      if tx.offset == 0 {
        key := SplitOffset(c, secKey, random);
      }
      status := AddParticipant(c, key, secNonce, pid, message);
    }

    method CheckPartSigs(c: Curve) returns (ok: bool)
      ensures ok == VerifyPartSigs(c, Value())
    {
      var i := 0;
      while i < |participantData|
        invariant 0 <= i <= |participantData|
        invariant forall j | 0 <= j < i :: PartSigVerifies(c, Value(), participantData[j])
      {
        var p := participantData[i];
        if p.partSig.Some? {
          var nonceSum := PubNonceSum(c, Value());
          if nonceSum.None? {
            return false;
          }
          var blindSum := PubBlindSum(c, Value());
          if blindSum.None? {
            return false;
          }
          var e := c.challenge(nonceSum.value, blindSum.value, FeaturesOf(Value()));
          if !Verifies(c.q, e, p.partSig.value, p.publicBlindExcess) {
            return false;
          }
        }
        i := i + 1;
      }
      ok := true;
    }

    method FillSecondRound(c: Curve, secKey: int, secNonce: int, pid: nat) returns (status: Status)
      modifies this`participantData
      ensures (status, Value()) == FillRound2(c, old(Value()), secKey, secNonce, pid)
      ensures status == Failed <==>
                !CheckFees(old(Value())) || !VerifyPartSigs(c, old(Value())) || ChallengeOf(c, old(Value())).None?
      ensures status != Failed ==>
                var e := ChallengeOf(c, old(Value())).value;
                var sig := Signature(Point(secNonce % c.q, 0), (secNonce + e * secKey) % c.q);
                (status, Value()) == SetPartSig(old(Value()), pid, sig)
    {
      hide VerifyPartSigs, CheckFees, SetPartSig;
      if !CheckFees(Value()) {
        return Failed;
      }
      var verified := CheckPartSigs(c);
      if !verified {
        return Failed;
      }
      var nonceSum, blindSum := PubNonceSum(c, Value()), PubBlindSum(c, Value());
      if nonceSum.None? || blindSum.None? {
        return Failed;
      }
      var e := c.challenge(nonceSum.value, blindSum.value, FeaturesOf(Value()));
      var sigPart := PartialSignature(c.q, e, secKey, secNonce);
      status := Record(pid, sigPart);
    }

    /** Round 2's search for the caller's entry. */
    method Record(pid: nat, sig: Signature) returns (status: Status)
      modifies this`participantData
      ensures status != Failed && (status, Value()) == SetPartSig(old(Value()), pid, sig)
    {
      var i := 0;
      while i < numParticipants
        invariant 0 <= i <= numParticipants && i <= |participantData|
        invariant Value() == old(Value())
        invariant forall j | 0 <= j < i :: participantData[j].id != pid
      {
        if i == |participantData| {
          return Aborted;
        }
        if participantData[i].id == pid {
          participantData := participantData[i := participantData[i].(partSig := Some(sig))];
          return Done;
        }
        i := i + 1;
      }
      status := Done;
    }

    method SumSignatures(c: Curve) returns (status: Status, sig: Signature)
      ensures (status, sig) == FinalizeSignature(c, Value())
      ensures status == Done ==>
                && PubNonceSum(c, Value()) == Some(sig.nonce) && PubBlindSum(c, Value()).Some?
                && var key := PubBlindSum(c, Value()).value;
                   Verifies(c.q, c.challenge(sig.nonce, key, FeaturesOf(Value())), sig, key)
      ensures status == Aborted <==>
                VerifyPartSigs(c, Value()) && exists i | 0 <= i < |participantData| :: participantData[i].partSig.None?
    {
      hide VerifyPartSigs, Verifies;
      var verified := CheckPartSigs(c);
      if !verified {
        return Failed, NO_SIGNATURE;
      }
      if !AllSigned(Value()) {
        return Aborted, NO_SIGNATURE;
      }
      var nonceSum, finalKey := PubNonceSum(c, Value()), PubBlindSum(c, Value());
      if nonceSum.None? || finalKey.None? {
        return Failed, NO_SIGNATURE;
      }
      sig := AddSignatures(c.q, PartSigScalars(participantData), nonceSum.value);
      var e := c.challenge(sig.nonce, finalKey.value, FeaturesOf(Value()));
      if !Verifies(c.q, e, sig, finalKey.value) {
        return Failed, NO_SIGNATURE;
      }
      status := Done;
    }

    method Complete(c: Curve, sig: Signature) returns (status: Status)
      modifies this`tx
      ensures (status, Value()) == FinalizeTransaction(c, old(Value()), sig)
      ensures status != Done ==> tx == old(tx)
      ensures status == Done ==>
                && |old(tx).kernels| == 1 && CalcExcess(c, old(Value())).Some? && c.validate(tx)
                && var excess := CalcExcess(c, old(Value())).value;
                   tx == old(tx).(kernels := [TxKernel(old(tx).kernels[0].features, excess, sig)])
      ensures status == Aborted <==>
                CheckFees(old(Value())) && CalcExcess(c, old(Value())).Some? && |old(tx).kernels| != 1
    {
      hide KernelVerifies, CheckFees;
      if !CheckFees(Value()) {
        return Failed;
      }
      var excess := CalcExcess(c, Value());
      if excess.None? {
        return Failed;
      }
      var finalTx := tx;
      if |finalTx.kernels| != 1 {
        return Aborted;
      }
      var kernel := finalTx.kernels[0];
      kernel := kernel.(excess := excess.value);
      kernel := kernel.(excessSig := sig);
      finalTx := finalTx.(kernels := [kernel]);
      if !KernelVerifies(c, kernel) {
        return Failed;
      }
      if !c.validate(finalTx) {
        return Failed;
      }
      tx := finalTx;
      status := Done;
    }

    method FinalizeSlate(c: Curve) returns (status: Status)
      modifies this`tx
      ensures (status, Value()) == Finalize(c, old(Value()))
    {
      var sig;
      status, sig := SumSignatures(c);
      if status == Done {
        status := Complete(c, sig);
      }
    }
  }
}
