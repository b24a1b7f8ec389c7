/**
 The encrypted owner session: requests run interleaved over two shared keys, the one the handler
 encrypts with and the one the owner API agreed on last. Each step below is what one request does while
 it holds a lock.
 */
module OwnerSession {
  import opened Common

  type Key = nat

  /** How far a request has come. */
  datatype Phase =
    | Checked                                                        // encryption is on; to be decrypted
    | Ready(init: bool, encrypted: bool, wrote: bool)                // to be handled, or in the middle of a batch
    | Handled(init: bool, encrypted: bool, ok: bool, wrote: bool)    // answered; the answer to be encrypted
    | Answered(init: bool, ok: bool, wrote: bool)                    // to publish the key if it was an init

  /**
   handlerKey and ownerKey are the shared keys. For the record: unsynced says that a key was agreed on
   since one was last published, and lost that a request which agreed on a key has since ended without
   publishing.
   */
  datatype State = State(
    handlerKey: Option<Key>,
    ownerKey: Option<Key>,
    requests: map<nat, Phase>,
    panicked: bool,
    unsynced: bool,
    lost: bool)

  const START := State(None, None, map[], false, false, false)

  datatype Step =
    | Arrive(id: nat, plainInit: bool)
    | Decrypt(id: nat, wellFormed: bool, cipherKey: Key, innerInit: bool)
    | BatchedInit(id: nat, newKey: Key)
    | Handle(id: nat, replies: bool, agreed: bool, converted: bool, freshKey: Key)
    | Encrypt(id: nat, encrypted: bool)
    | Publish(id: nat)

  function End(st: State, id: nat, wrote: bool): State {
    st.(requests := st.requests - {id}, lost := st.lost || (wrote && st.unsynced))
  }

  /** A plain init goes straight on; anything else needs a handler key to be there. */
  function DoArrive(st: State, id: nat, plainInit: bool): State {
    if plainInit then st.(requests := st.requests[id := Ready(true, false, false)])
    else if st.handlerKey.None? then st
    else st.(requests := st.requests[id := Checked])
  }

  /** The handler key is unwrapped; the request is decrypted with the key it holds now. */
  function DoDecrypt(st: State, id: nat, wellFormed: bool, cipherKey: Key, innerInit: bool): State {
    match st.handlerKey
    case None => st.(panicked := true)
    case Some(key) =>
      if wellFormed && cipherKey == key then st.(requests := st.requests[id := Ready(innerInit, true, false)])
      else st.(requests := st.requests - {id})
  }

  /**
   What was decrypted may be a batch (section 6 of JSON-RPC 2.0), an array without a method of its own.
   It does not count as an init, but each init in it that agrees on a key writes it to the owner key.
   */
  function DoBatchedInit(st: State, id: nat, p: Phase, newKey: Key): State
    requires p.Ready?
  {
    st.(ownerKey := Some(newKey), requests := st.requests[id := Ready(p.init, p.encrypted, true)],
        unsynced := true)
  }

  /** An init writes the owner key unless agreeing on one failed; it may still fail or not reply after that. */
  function DoHandle(st: State, id: nat, p: Phase, replies: bool, agreed: bool, converted: bool, newKey: Key): State
    requires p.Ready?
  {
    var written := if p.init && agreed then st.(ownerKey := Some(newKey), unsynced := true) else st;
    var wrote := p.wrote || (p.init && agreed);
    if replies
    then written.(requests := st.requests[id := Handled(p.init, p.encrypted, agreed && converted, wrote)])
    else End(written, id, wrote)
  }

  /** Answers to encrypted requests are encrypted with the handler key, which is unwrapped. */
  function DoEncrypt(st: State, id: nat, p: Phase, encrypted: bool): State
    requires p.Handled?
  {
    if !p.encrypted then st.(requests := st.requests[id := Answered(p.init, p.ok, p.wrote)])
    else if st.handlerKey.None? then st.(panicked := true)
    else if !encrypted then End(st, id, p.wrote)
    else st.(requests := st.requests[id := Answered(p.init, p.ok, p.wrote)])
  }

  /** The owner key is read and, if the init succeeded, made the handler key, under one guard. */
  function DoPublish(st: State, id: nat, p: Phase): State
    requires p.Answered?
  {
    if p.init && p.ok
    then st.(handlerKey := st.ownerKey, requests := st.requests - {id}, unsynced := false, lost := false)
    else End(st, id, p.wrote)
  }

  predicate MayBeBatch(p: Phase) {
    p.Ready? && p.encrypted && !p.init
  }

  /** A step of a request that is not at that point leaves the state alone. */
  function Next(st: State, step: Step): State {
    match step
    case Arrive(id, plainInit) => if id in st.requests then st else DoArrive(st, id, plainInit)
    case Decrypt(id, wellFormed, cipherKey, innerInit) =>
      if id in st.requests && st.requests[id].Checked? then DoDecrypt(st, id, wellFormed, cipherKey, innerInit) else st
    case BatchedInit(id, newKey) =>
      if id in st.requests && MayBeBatch(st.requests[id]) then DoBatchedInit(st, id, st.requests[id], newKey) else st
    case Handle(id, replies, agreed, converted, newKey) =>
      if id in st.requests && st.requests[id].Ready?
      then DoHandle(st, id, st.requests[id], replies, agreed, converted, newKey)
      else st
    case Encrypt(id, encrypted) =>
      if id in st.requests && st.requests[id].Handled? then DoEncrypt(st, id, st.requests[id], encrypted) else st
    case Publish(id) =>
      if id in st.requests && st.requests[id].Answered? then DoPublish(st, id, st.requests[id]) else st
  }

  function Run(st: State, steps: seq<Step>): State {
    if steps == [] then st else Next(Run(st, steps[..|steps| - 1]), steps[|steps| - 1])
  }

  // ----- the shared keys as an object -----

  /** What one request does from start to end, as the outside world decides it. */
  datatype Request = Request(
    id: nat,
    plainInit: bool,
    wellFormed: bool,
    cipherKey: Key,
    innerInit: bool,
    batch: seq<Key>,       // the keys that inits inside a batch agree on, in turn
    replies: bool,
    agreed: bool,
    converted: bool,
    freshKey: Key,
    responseEncrypted: bool)
  {
    function FirstSteps(): seq<Step> {
      [Arrive(id, plainInit), Decrypt(id, wellFormed, cipherKey, innerInit)]
    }

    function LastSteps(): seq<Step> {
      [Handle(id, replies, agreed, converted, freshKey), Encrypt(id, responseEncrypted), Publish(id)]
    }

    function Steps(): seq<Step> {
      FirstSteps() + BatchSteps(id, batch) + LastSteps()
    }
  }

  function BatchSteps(id: nat, batch: seq<Key>): (steps: seq<Step>)
    ensures |steps| == |batch|
  {
    seq(|batch|, i requires 0 <= i < |batch| => BatchedInit(id, batch[i]))
  }

  datatype Answer = EncryptionRequired | DecryptionError | Reply | NoReply | EncryptionError

  class OwnerHandler {
    var handlerKey: Option<Key>
    var ownerKey: Option<Key>

    constructor ()
      ensures handlerKey == None && ownerKey == None
    {
      handlerKey, ownerKey := None, None;
    }

    /** The init of the owner API; the key stays written when the conversion after it fails. */
    method InitSecureApi(agreed: bool, converted: bool, newKey: Key) returns (ok: bool)
      modifies this`ownerKey
      ensures ownerKey == (if agreed then Some(newKey) else old(ownerKey))
      ensures ok == (agreed && converted)
    {
      if !agreed {
        return false;
      }
      ownerKey := Some(newKey);
      ok := converted;
    }

    method UpdateSharedKey(ok: bool)
      modifies this`handlerKey
      ensures handlerKey == if ok then ownerKey else old(handlerKey)
    {
      if ok {
        handlerKey := ownerKey;
      }
    }

    /** A request handled alone moves the keys as its steps do when they are taken one after the other. */
    method CallApi(r: Request, ghost st: State) returns (answer: Answer)
      requires st.handlerKey == handlerKey && st.ownerKey == ownerKey && r.id !in st.requests
      modifies this
      ensures var st' := Run(st, r.Steps());
              handlerKey == st'.handlerKey && ownerKey == st'.ownerKey && st'.requests == st.requests
              && st'.panicked == st.panicked
      ensures answer == EncryptionRequired <==> !r.plainInit && old(handlerKey).None?
      ensures answer == DecryptionError <==>
                !r.plainInit && old(handlerKey).Some? && !(r.wellFormed && old(handlerKey) == Some(r.cipherKey))
      ensures answer == NoReply <==>
                (r.plainInit || (r.wellFormed && old(handlerKey) == Some(r.cipherKey))) && !r.replies
      ensures answer == EncryptionError <==>
                !r.plainInit && r.wellFormed && old(handlerKey) == Some(r.cipherKey)
                && r.replies && !r.responseEncrypted
      ensures handlerKey != old(handlerKey) ==> answer == Reply && handlerKey == Some(r.freshKey)
      ensures ownerKey != old(ownerKey) ==> answer != EncryptionRequired && answer != DecryptionError
    {
      AloneFromStart(st, r);
      hide Run;
      var isInit := r.plainInit;
      var wasEncrypted := false;
      if !isInit {
        if handlerKey.None? {
          return EncryptionRequired;
        }
        if !r.wellFormed || r.cipherKey != handlerKey.value {
          return DecryptionError;
        }
        isInit := r.innerInit;
        wasEncrypted := true;
      }
      var ok := r.agreed && r.converted;
      if isInit {
        ok := InitSecureApi(r.agreed, r.converted, r.freshKey);
      } else {
        for k := 0 to |r.batch|
          invariant handlerKey == st.handlerKey
          invariant ownerKey == if k == 0 then st.ownerKey else Some(r.batch[k - 1])
        {
          var _ := InitSecureApi(true, true, r.batch[k]);
        }
      }
      if !r.replies {
        return NoReply;
      }
      if wasEncrypted {
        if !r.responseEncrypted {
          return EncryptionError;
        }
      }
      if isInit {
        UpdateSharedKey(ok);
      }
      answer := Reply;
    }
  }

  /** Whether the request gets past encryption, and whether it then is an init. */
  predicate Passes(handlerKey: Option<Key>, r: Request) {
    r.plainInit || (handlerKey.Some? && r.wellFormed && r.cipherKey == handlerKey.value)
  }

  /** The key that the request writes last, if it writes one. */
  function OwnerAfter(handlerKey: Option<Key>, ownerKey: Option<Key>, r: Request): Option<Key> {
    if !Passes(handlerKey, r) then ownerKey
    else if r.plainInit || r.innerInit then (if r.agreed then Some(r.freshKey) else ownerKey)
    else if r.batch != [] then Some(r.batch[|r.batch| - 1])
    else ownerKey
  }

  function HandlerAfter(handlerKey: Option<Key>, r: Request): Option<Key> {
    if Passes(handlerKey, r) && (r.plainInit || r.innerInit) && r.agreed && r.converted && r.replies
       && (r.plainInit || r.responseEncrypted)
    then Some(r.freshKey) else handlerKey
  }

  /** What the steps of a request come to when no other request runs between them. */
  lemma AloneFromStart(st: State, r: Request)
    requires r.id !in st.requests
    ensures Reaches(Run(st, r.Steps()), st, HandlerAfter(st.handlerKey, r), OwnerAfter(st.handlerKey, st.ownerKey, r))
  {
    hide Run, Next, BatchSteps;
    var init, encrypted := r.plainInit || r.innerInit, !r.plainInit;
    RunsAppend(st, r.FirstSteps() + BatchSteps(r.id, r.batch), r.LastSteps());
    RunsAppend(st, r.FirstSteps(), BatchSteps(r.id, r.batch));
    FirstAlone(st, r);
    var s2 := Run(st, r.FirstSteps());
    if Passes(st.handlerKey, r) {
      var p := BatchAlone(st, s2, r.id, Ready(init, encrypted, false), r.batch);
      LastAlone(st, Run(s2, BatchSteps(r.id, r.batch)), r, p,
                if init || r.batch == [] then st.ownerKey else Some(r.batch[|r.batch| - 1]));
    } else {
      AbsentAll(st, r);
    }
  }

  lemma FirstAlone(st: State, r: Request)
    requires r.id !in st.requests
    ensures Run(st, r.FirstSteps()) ==
              if Passes(st.handlerKey, r)
              then st.(requests := st.requests[r.id := Ready(r.plainInit || r.innerInit, !r.plainInit, false)])
              else st
  {
    hide Run, DoHandle, DoEncrypt, DoPublish;
    var s1 := Next(st, r.FirstSteps()[0]);
    TwoSteps(st, r.FirstSteps());
    if !r.plainInit && st.handlerKey.Some? {
      Overwrite(st.requests, s1.requests, r.id, Checked, Ready(r.innerInit, true, false));
    }
  }

  lemma Overwrite(m: map<nat, Phase>, m': map<nat, Phase>, id: nat, p: Phase, p': Phase)
    requires id !in m && m' == m[id := p]
    ensures m'[id := p'] == m[id := p'] && m' - {id} == m
  {
  }

  lemma LastInBatch(id: nat, batch: seq<Key>)
    requires batch != []
    ensures var n, steps := |batch| - 1, BatchSteps(id, batch);
            steps[..n] == BatchSteps(id, batch[..n]) && steps[n] == BatchedInit(id, batch[n])
  {
  }

  lemma BatchStep(st: State, id: nat, p: Phase, key: Key)
    requires p.Ready? && (p.init || p.encrypted) && id in st.requests && st.requests[id] == p
    ensures var p' := Ready(p.init, p.encrypted, p.wrote || !p.init);
            Reaches(Next(st, BatchedInit(id, key)), st.(requests := st.requests[id := p']), st.handlerKey,
                    if p.init then st.ownerKey else Some(key))
  {
  }

  lemma {:induction false} BatchAlone(st: State, s2: State, id: nat, p: Phase, batch: seq<Key>) returns (p': Phase)
    requires id !in st.requests && p.Ready? && !p.wrote && (p.init || p.encrypted)
    requires s2 == st.(requests := st.requests[id := p])
    ensures p' == Ready(p.init, p.encrypted, !p.init && batch != [])
    ensures Reaches(Run(s2, BatchSteps(id, batch)), st.(requests := st.requests[id := p']), st.handlerKey,
                    if p.init || batch == [] then st.ownerKey else Some(batch[|batch| - 1]))
  {
    p' := Ready(p.init, p.encrypted, !p.init && batch != []);
    var steps := BatchSteps(id, batch);
    if batch == [] {
      assert steps == [];
    } else {
      hide Run, Next, BatchSteps;
      var n := |batch| - 1;
      var before := BatchAlone(st, s2, id, p, batch[..n]);
      LastInBatch(id, batch);
      LastStep(s2, steps);
      var mid := Run(s2, steps[..n]);
      BatchStep(mid, id, before, batch[n]);
      Overwrite(st.requests, mid.requests, id, before, p');
    }
  }

  /** The steps of a request that is not there do nothing. */
  lemma {:induction false} AbsentSkips(st: State, steps: seq<Step>, id: nat)
    requires id !in st.requests
    requires forall i | 0 <= i < |steps| :: steps[i].id == id && !steps[i].Arrive?
    ensures Run(st, steps) == st
  {
    if steps != [] {
      AbsentSkips(st, steps[..|steps| - 1], id);
      LastStep(st, steps);
      hide Run;
    }
  }

  lemma AbsentAll(st: State, r: Request)
    requires r.id !in st.requests
    ensures Run(Run(st, BatchSteps(r.id, r.batch)), r.LastSteps()) == st
  {
    hide Run;
    AbsentSkips(st, BatchSteps(r.id, r.batch), r.id);
    AbsentSkips(st, r.LastSteps(), r.id);
  }

  /** The same keys and requests as st, except for those named. */
  predicate Reaches(st': State, st: State, handlerKey: Option<Key>, ownerKey: Option<Key>) {
    && st'.handlerKey == handlerKey && st'.ownerKey == ownerKey
    && st'.requests == st.requests && st'.panicked == st.panicked
  }

  lemma LastAlone(st: State, s3: State, r: Request, p: Phase, owner: Option<Key>)
    requires r.id !in st.requests && p.Ready? && (p.encrypted ==> st.handlerKey.Some?)
    requires Reaches(s3, st.(requests := st.requests[r.id := p]), st.handlerKey, owner)
    ensures var owner' := if p.init && r.agreed then Some(r.freshKey) else owner;
            var handler := if p.init && r.agreed && r.converted && r.replies && (!p.encrypted || r.responseEncrypted)
                           then owner' else st.handlerKey;
            Reaches(Run(s3, r.LastSteps()), st, handler, owner')
  {
    hide Next, Run;
    var owner' := if p.init && r.agreed then Some(r.freshKey) else owner;
    var steps := r.LastSteps();
    ThreeSteps(s3, steps);
    var s4 := Next(s3, steps[0]);
    HandleAlone(st, s3, r, p, owner);
    if r.replies {
      var h := Handled(p.init, p.encrypted, r.agreed && r.converted, p.wrote || (p.init && r.agreed));
      AloneFromHandled(st, s4, r, h, owner');
    } else {
      AbsentSkips(s4, steps[1..], r.id);
      TwoSteps(s4, steps[1..]);
    }
  }

  lemma HandleAlone(st: State, s3: State, r: Request, p: Phase, owner: Option<Key>)
    requires r.id !in st.requests && p.Ready?
    requires Reaches(s3, st.(requests := st.requests[r.id := p]), st.handlerKey, owner)
    ensures var h := Handled(p.init, p.encrypted, r.agreed && r.converted, p.wrote || (p.init && r.agreed));
            Reaches(Next(s3, r.LastSteps()[0]), if r.replies then st.(requests := st.requests[r.id := h]) else st,
                    st.handlerKey, if p.init && r.agreed then Some(r.freshKey) else owner)
  {
    var h := Handled(p.init, p.encrypted, r.agreed && r.converted, p.wrote || (p.init && r.agreed));
    HandleStep(s3, r, p);
    Overwrite(st.requests, s3.requests, r.id, p, h);
    hide Next;
  }

  lemma HandleStep(st: State, r: Request, p: Phase)
    requires p.Ready? && r.id in st.requests && st.requests[r.id] == p
    ensures var h := Handled(p.init, p.encrypted, r.agreed && r.converted, p.wrote || (p.init && r.agreed));
            var requests := if r.replies then st.requests[r.id := h] else st.requests - {r.id};
            Reaches(Next(st, r.LastSteps()[0]), st.(requests := requests), st.handlerKey,
                    if p.init && r.agreed then Some(r.freshKey) else st.ownerKey)
  {
  }

  lemma AloneFromHandled(st: State, s4: State, r: Request, p: Phase, owner: Option<Key>)
    requires r.id !in st.requests && p.Handled? && (p.encrypted ==> st.handlerKey.Some?)
    requires Reaches(s4, st.(requests := st.requests[r.id := p]), st.handlerKey, owner)
    ensures Reaches(Next(Next(s4, r.LastSteps()[1]), r.LastSteps()[2]), st,
                    if p.init && p.ok && (!p.encrypted || r.responseEncrypted) then owner else st.handlerKey, owner)
  {
    var s5 := Next(s4, r.LastSteps()[1]);
    var a := Answered(p.init, p.ok, p.wrote);
    Overwrite(st.requests, s4.requests, r.id, p, a);
    if !p.encrypted || r.responseEncrypted {
      assert Reaches(s5, st.(requests := st.requests[r.id := a]), st.handlerKey, owner);
      hide Next;
      AloneFromAnswered(st, s5, r, a, owner);
    } else {
      assert Reaches(s5, st, st.handlerKey, owner);
      assert Next(s5, r.LastSteps()[2]) == s5;
    }
  }

  lemma AloneFromAnswered(st: State, s5: State, r: Request, a: Phase, owner: Option<Key>)
    requires r.id !in st.requests && a.Answered?
    requires Reaches(s5, st.(requests := st.requests[r.id := a]), st.handlerKey, owner)
    ensures Reaches(Next(s5, r.LastSteps()[2]), st, if a.init && a.ok then owner else st.handlerKey, owner)
  {
    Overwrite(st.requests, s5.requests, r.id, a, a);
  }

  lemma TwoSteps(st: State, steps: seq<Step>)
    requires |steps| == 2
    ensures Run(st, steps) == Next(Next(st, steps[0]), steps[1])
  {
    hide Next;
    assert steps[..1][..0] == [];
    assert Run(st, steps[..1]) == Next(st, steps[0]);
  }

  lemma ThreeSteps(st: State, steps: seq<Step>)
    requires |steps| == 3
    ensures Run(st, steps) == Next(Next(Next(st, steps[0]), steps[1]), steps[2])
  {
    hide Next;
    TwoSteps(st, steps[..2]);
  }

  lemma LastStep(st: State, steps: seq<Step>)
    requires steps != []
    ensures Run(st, steps) == Next(Run(st, steps[..|steps| - 1]), steps[|steps| - 1])
  {
    hide Next;
  }

  lemma {:induction false} RunsAppend(st: State, a: seq<Step>, b: seq<Step>)
    ensures Run(st, a + b) == Run(Run(st, a), b)
    decreases |b|
  {
    hide Next;
    if b == [] {
      assert a + b == a;
    } else {
      RunsAppend(st, a, b[..|b| - 1]);
      assert (a + b)[..|a + b| - 1] == a + b[..|b| - 1];
    }
  }

  /**
   An init alone, then an encrypted request: the request is taken in exactly if it is encrypted with the
   init's key, or, if the init failed after writing or before, with the key that the handler had before.
   */
  lemma InitThenRequest(st: State, init: Request, r: Request)
    requires init.id !in st.requests && r.id !in st.requests && init.plainInit && !r.plainInit
    ensures var after := Run(st, init.Steps());
            && after.ownerKey == (if init.agreed then Some(init.freshKey) else st.ownerKey)
            && after.handlerKey ==
                 (if init.agreed && init.converted && init.replies then Some(init.freshKey) else st.handlerKey)
            && (r.id in Run(after, r.FirstSteps()).requests <==>
                  r.wellFormed && after.handlerKey == Some(r.cipherKey))
  {
    hide Run, Next;
    AloneFromStart(st, init);
    FirstAlone(Run(st, init.Steps()), r);
  }

  // ----- what every interleaving keeps -----

  /** A request that has agreed on a key and will publish the owner key. */
  predicate WillPublish(p: Phase) {
    (p.Handled? || p.Answered?) && p.init && p.ok
  }

  predicate HasWritten(p: Phase) {
    (p.Ready? || p.Handled? || p.Answered?) && p.wrote
  }

  /** What a request has done fits the keys there are. */
  predicate Fits(st: State, p: Phase) {
    && (p.Checked? || ((p.Ready? || p.Handled?) && p.encrypted) ==> st.handlerKey.Some?)
    && (HasWritten(p) ==> st.ownerKey.Some?)
    && (WillPublish(p) ==> HasWritten(p))
  }

  predicate Inv(st: State) {
    && !st.panicked
    && (st.handlerKey.Some? ==> st.ownerKey.Some?)
    && (forall id | id in st.requests :: Fits(st, st.requests[id]))
    && (!st.unsynced ==> st.handlerKey == st.ownerKey)
    && (st.lost ==> st.unsynced)
    && (st.unsynced ==> st.lost || exists id | id in st.requests :: HasWritten(st.requests[id]))
  }

  /** Keys can only come to be there: neither is ever cleared, and a request's place is its own. */
  predicate Grows(st: State, st': State) {
    && (st.handlerKey.Some? ==> st'.handlerKey.Some?)
    && (st.ownerKey.Some? ==> st'.ownerKey.Some?)
  }

  lemma OthersFit(st: State, st': State, id: nat)
    requires Inv(st) && Grows(st, st')
    requires forall k | k in st'.requests && k != id :: k in st.requests && st'.requests[k] == st.requests[k]
    requires id in st'.requests ==> Fits(st', st'.requests[id])
    ensures forall k | k in st'.requests :: Fits(st', st'.requests[k])
  {
    forall k | k in st'.requests ensures Fits(st', st'.requests[k]) {
      if k != id {
        assert Fits(st, st.requests[k]);
      }
    }
  }

  /** The writer among the requests, if any but this one, is there after the step too. */
  lemma WritersStay(st: State, st': State, id: nat)
    requires Inv(st) && st.unsynced && st'.unsynced
    requires forall k | k in st.requests && k != id :: k in st'.requests && st'.requests[k] == st.requests[k]
    requires st.lost ==> st'.lost
    requires id in st.requests && HasWritten(st.requests[id]) ==>
               st'.lost || (id in st'.requests && HasWritten(st'.requests[id]))
    ensures st'.lost || exists k | k in st'.requests :: HasWritten(st'.requests[k])
  {
    if !st.lost {
      var k :| k in st.requests && HasWritten(st.requests[k]);
      if k != id {
        assert HasWritten(st'.requests[k]);
      }
    }
  }

  lemma ArriveKeeps(st: State, id: nat, plainInit: bool)
    requires Inv(st) && id !in st.requests
    ensures Inv(DoArrive(st, id, plainInit))
  {
    var st' := DoArrive(st, id, plainInit);
    OthersFit(st, st', id);
    if st.unsynced {
      WritersStay(st, st', id);
    }
  }

  lemma DecryptKeeps(st: State, id: nat, wellFormed: bool, cipherKey: Key, innerInit: bool)
    requires Inv(st) && id in st.requests && st.requests[id].Checked?
    ensures Inv(DoDecrypt(st, id, wellFormed, cipherKey, innerInit))
  {
    var st' := DoDecrypt(st, id, wellFormed, cipherKey, innerInit);
    assert Fits(st, st.requests[id]);
    OthersFit(st, st', id);
    if st.unsynced {
      WritersStay(st, st', id);
    }
  }

  lemma BatchedInitKeeps(st: State, id: nat, newKey: Key)
    requires Inv(st) && id in st.requests && MayBeBatch(st.requests[id])
    ensures Inv(DoBatchedInit(st, id, st.requests[id], newKey))
  {
    var st' := DoBatchedInit(st, id, st.requests[id], newKey);
    assert Fits(st, st.requests[id]);
    OthersFit(st, st', id);
    assert HasWritten(st'.requests[id]);
  }

  lemma HandleKeeps(st: State, id: nat, replies: bool, agreed: bool, converted: bool, newKey: Key)
    requires Inv(st) && id in st.requests && st.requests[id].Ready?
    ensures Inv(DoHandle(st, id, st.requests[id], replies, agreed, converted, newKey))
  {
    var p := st.requests[id];
    var st' := DoHandle(st, id, p, replies, agreed, converted, newKey);
    assert Fits(st, p);
    OthersFit(st, st', id);
    if p.init && agreed {
      if replies {
        assert HasWritten(st'.requests[id]);
      }
    } else if st.unsynced {
      WritersStay(st, st', id);
    }
  }

  lemma EncryptKeeps(st: State, id: nat, encrypted: bool)
    requires Inv(st) && id in st.requests && st.requests[id].Handled?
    ensures Inv(DoEncrypt(st, id, st.requests[id], encrypted))
  {
    var st' := DoEncrypt(st, id, st.requests[id], encrypted);
    assert Fits(st, st.requests[id]);
    OthersFit(st, st', id);
    if st.unsynced {
      WritersStay(st, st', id);
    }
  }

  lemma PublishKeeps(st: State, id: nat)
    requires Inv(st) && id in st.requests && st.requests[id].Answered?
    ensures Inv(DoPublish(st, id, st.requests[id]))
  {
    var p := st.requests[id];
    var st' := DoPublish(st, id, p);
    assert Fits(st, p);
    OthersFit(st, st', id);
    if !(p.init && p.ok) && st.unsynced {
      WritersStay(st, st', id);
    }
  }

  lemma NextKeeps(st: State, step: Step)
    requires Inv(st)
    ensures Inv(Next(st, step))
  {
    hide Inv;
    match step {
      case Arrive(id, plainInit) =>
        if id !in st.requests {
          ArriveKeeps(st, id, plainInit);
        }
      case Decrypt(id, wellFormed, cipherKey, innerInit) =>
        if id in st.requests && st.requests[id].Checked? {
          DecryptKeeps(st, id, wellFormed, cipherKey, innerInit);
        }
      case BatchedInit(id, newKey) =>
        if id in st.requests && MayBeBatch(st.requests[id]) {
          BatchedInitKeeps(st, id, newKey);
        }
      case Handle(id, replies, agreed, converted, newKey) =>
        if id in st.requests && st.requests[id].Ready? {
          HandleKeeps(st, id, replies, agreed, converted, newKey);
        }
      case Encrypt(id, encrypted) =>
        if id in st.requests && st.requests[id].Handled? {
          EncryptKeeps(st, id, encrypted);
        }
      case Publish(id) =>
        if id in st.requests && st.requests[id].Answered? {
          PublishKeeps(st, id);
        }
    }
  }

  lemma {:induction false} RunKeeps(steps: seq<Step>)
    ensures Inv(Run(START, steps))
  {
    if steps == [] {
      assert Inv(START);
    } else {
      hide Inv, Next;
      RunKeeps(steps[..|steps| - 1]);
      NextKeeps(Run(START, steps[..|steps| - 1]), steps[|steps| - 1]);
    }
  }

  /** No interleaving makes an unwrap fail. */
  lemma NeverPanics(steps: seq<Step>)
    ensures !Run(START, steps).panicked
  {
    RunKeeps(steps);
  }

  lemma HandlerStays(st: State, step: Step)
    requires Inv(st) && st.handlerKey.Some?
    ensures Next(st, step).handlerKey.Some?
  {
  }

  /** Once there is a handler key there always is one. */
  lemma {:induction false} KeyNeverCleared(steps: seq<Step>, more: seq<Step>)
    requires Run(START, steps).handlerKey.Some?
    ensures Run(START, steps + more).handlerKey.Some?
    decreases |more|
  {
    hide Run, Next, Inv;
    if more == [] {
      assert steps + more == steps;
    } else {
      var front := more[..|more| - 1];
      KeyNeverCleared(steps, front);
      assert (steps + more)[..|steps + more| - 1] == steps + front;
      RunKeeps(steps + front);
      LastStep(START, steps + more);
      HandlerStays(Run(START, steps + front), more[|more| - 1]);
    }
  }

  /**
   If the keys differ, some request that agreed on a key is still under way, or one has ended without
   publishing since a key was last published.
   */
  lemma DifferingKeysExplained(steps: seq<Step>)
    ensures var st := Run(START, steps);
            st.handlerKey != st.ownerKey ==>
              st.lost || exists id | id in st.requests :: HasWritten(st.requests[id])
  {
    RunKeeps(steps);
  }

  // ----- no failure between agreeing and publishing -----

  /** Every init that agrees on a key replies with success, every answer can be encrypted, no batch holds an init. */
  predicate Smooth(step: Step) {
    match step
    case Handle(_, replies, agreed, converted, _) => agreed ==> replies && converted
    case Encrypt(_, encrypted) => encrypted
    case BatchedInit(_, _) => false
    case _ => true
  }

  predicate AllSmooth(steps: seq<Step>) {
    forall i | 0 <= i < |steps| :: Smooth(steps[i])
  }

  /** Then whoever has agreed on a key will publish. */
  predicate SmoothInv(st: State) {
    !st.lost && forall id | id in st.requests :: HasWritten(st.requests[id]) ==> WillPublish(st.requests[id])
  }

  lemma {:induction false} SmoothKeeps(steps: seq<Step>)
    requires AllSmooth(steps)
    ensures SmoothInv(Run(START, steps))
  {
    if steps != [] {
      var before := Run(START, steps[..|steps| - 1]);
      SmoothKeeps(steps[..|steps| - 1]);
      RunKeeps(steps[..|steps| - 1]);
      SmoothNext(before, steps[|steps| - 1]);
    }
  }

  lemma SmoothNext(st: State, step: Step)
    requires Inv(st) && SmoothInv(st) && Smooth(step)
    ensures SmoothInv(Next(st, step))
  {
    var st' := Next(st, step);
    assert step.id in st.requests ==> (HasWritten(st.requests[step.id]) ==> WillPublish(st.requests[step.id]));
    assert step.id in st.requests ==> Fits(st, st.requests[step.id]);
    assert forall k | k in st'.requests && k != step.id :: k in st.requests && st'.requests[k] == st.requests[k];
  }

  /**
   Agreement at quiescence: when nothing fails between agreeing and publishing, differing keys mean that
   some request is about to publish, so with no request under way the keys agree.
   */
  lemma AgreeWhenQuiet(steps: seq<Step>)
    requires AllSmooth(steps)
    ensures var st := Run(START, steps);
            && (st.handlerKey != st.ownerKey ==> exists id | id in st.requests :: WillPublish(st.requests[id]))
            && (st.requests == map[] ==> st.handlerKey == st.ownerKey)
  {
    RunKeeps(steps);
    SmoothKeeps(steps);
    var st := Run(START, steps);
    if st.unsynced {
      var id :| id in st.requests && HasWritten(st.requests[id]);
      assert WillPublish(st.requests[id]);
    }
  }

  // ----- exactly when the keys agree -----

  /** The key that is written if the step writes one. */
  function KeyOf(step: Step): Option<Key> {
    match step
    case BatchedInit(_, newKey) => Some(newKey)
    case Handle(_, _, _, _, newKey) => Some(newKey)
    case _ => None
  }

  /** Keys agreed on are new: different from the key the handler holds at that time. */
  predicate NewKey(st: State, step: Step) {
    KeyOf(step).Some? ==> st.handlerKey != KeyOf(step)
  }

  predicate AllNewKeys(steps: seq<Step>) {
    steps != [] ==>
      AllNewKeys(steps[..|steps| - 1]) && NewKey(Run(START, steps[..|steps| - 1]), steps[|steps| - 1])
  }

  lemma {:induction false} UnsyncedDiffer(steps: seq<Step>)
    requires AllNewKeys(steps)
    ensures Run(START, steps).unsynced ==> Run(START, steps).handlerKey != Run(START, steps).ownerKey
  {
    hide Next, NewKey;
    if steps != [] {
      UnsyncedDiffer(steps[..|steps| - 1]);
      UnsyncedNext(Run(START, steps[..|steps| - 1]), steps[|steps| - 1]);
    }
  }

  lemma UnsyncedNext(st: State, step: Step)
    requires NewKey(st, step) && (st.unsynced ==> st.handlerKey != st.ownerKey)
    ensures Next(st, step).unsynced ==> Next(st, step).handlerKey != Next(st, step).ownerKey
  {
  }

  /** In this step an init, alone or inside a batch, agrees on a key and writes it. */
  predicate Writes(st: State, step: Step) {
    && step.id in st.requests
    && var p := st.requests[step.id];
       (step.Handle? && step.agreed && p.Ready? && p.init) || (step.BatchedInit? && MayBeBatch(p))
  }

  /** This step makes the owner key the handler key. */
  predicate Publishes(st: State, step: Step) {
    && step.Publish? && step.id in st.requests
    && var p := st.requests[step.id];
       p.Answered? && p.init && p.ok
  }

  predicate WritesAt(steps: seq<Step>, i: nat)
    requires i < |steps|
  {
    Writes(Run(START, steps[..i]), steps[i])
  }

  predicate PublishesAt(steps: seq<Step>, i: nat)
    requires i < |steps|
  {
    Publishes(Run(START, steps[..i]), steps[i])
  }

  predicate PublishedAfter(steps: seq<Step>, i: nat) {
    exists j | i < j < |steps| :: PublishesAt(steps, j)
  }

  /** Whenever an init has written the owner key, the owner key has been published since. */
  predicate AllPublished(steps: seq<Step>) {
    forall i | 0 <= i < |steps| && WritesAt(steps, i) :: PublishedAfter(steps, i)
  }

  lemma NextUnsynced(st: State, step: Step)
    ensures Next(st, step).unsynced <==> Writes(st, step) || (st.unsynced && !Publishes(st, step))
  {
  }

  lemma PrefixPoint(steps: seq<Step>, i: nat)
    requires i < |steps| - 1
    ensures WritesAt(steps, i) == WritesAt(steps[..|steps| - 1], i)
    ensures PublishesAt(steps, i) == PublishesAt(steps[..|steps| - 1], i)
  {
    assert steps[..|steps| - 1][..i] == steps[..i];
  }

  /** One more step: only the last point is new, and a publication there covers every write before it. */
  lemma AllPublishedStep(steps: seq<Step>)
    requires steps != []
    ensures var n := |steps| - 1;
            AllPublished(steps) <==> !WritesAt(steps, n) && (AllPublished(steps[..n]) || PublishesAt(steps, n))
  {
    hide WritesAt, PublishesAt;
    var n := |steps| - 1;
    var front := steps[..n];
    forall i | 0 <= i < n
      ensures WritesAt(steps, i) == WritesAt(front, i)
      ensures PublishedAfter(steps, i) <==> PublishedAfter(front, i) || PublishesAt(steps, n)
    {
      PrefixPoint(steps, i);
      forall j | i < j < n ensures PublishesAt(steps, j) == PublishesAt(front, j) {
        PrefixPoint(steps, j);
      }
    }
    assert !PublishedAfter(steps, n);
  }

  lemma {:induction false} UnsyncedIff(steps: seq<Step>)
    ensures Run(START, steps).unsynced <==> !AllPublished(steps)
  {
    if steps == [] {
    } else {
      var n := |steps| - 1;
      UnsyncedIff(steps[..n]);
      AllPublishedStep(steps);
      NextUnsynced(Run(START, steps[..n]), steps[n]);
      WritesOrPublishes(steps, n);
      hide Next, Writes, Publishes, AllPublished;
    }
  }

  lemma WritesOrPublishes(steps: seq<Step>, i: nat)
    requires i < |steps|
    ensures !(WritesAt(steps, i) && PublishesAt(steps, i))
  {
  }

  /**
   With failures allowed, in every state: the keys agree if every key written has been followed by a
   publication. If the keys agreed on are new, they agree only then.
   */
  lemma KeysAgreeIff(steps: seq<Step>)
    ensures var st := Run(START, steps);
            && (AllPublished(steps) ==> st.handlerKey == st.ownerKey)
            && (AllNewKeys(steps) ==> (st.handlerKey == st.ownerKey <==> AllPublished(steps)))
  {
    hide Run, AllPublished, AllNewKeys;
    RunKeeps(steps);
    UnsyncedIff(steps);
    if AllNewKeys(steps) {
      UnsyncedDiffer(steps);
    }
  }

  /** So keys that differ while no request is under way were left apart by a writer that ended unpublished. */
  lemma QuietKeysAgreeIff(steps: seq<Step>)
    requires AllNewKeys(steps) && Run(START, steps).requests == map[]
    ensures var st := Run(START, steps);
            (st.handlerKey == st.ownerKey <==> AllPublished(steps)) && (AllPublished(steps) <==> !st.lost)
  {
    hide Run, AllPublished, AllNewKeys;
    RunKeeps(steps);
    KeysAgreeIff(steps);
    UnsyncedIff(steps);
  }

  /**
   A re-keying whose encrypted answer cannot be made leaves the keys apart until another init: the client, which
   got an error, and the handler keep the old key, the owner API has the new one.
   */
  lemma LostRekeying(oldKey: Key, newKey: Key)
    requires oldKey != newKey
    ensures var first := Request(0, true, true, oldKey, true, [], true, true, true, oldKey, true).Steps();
            var second := Request(0, false, true, oldKey, true, [], true, true, true, newKey, false).Steps();
            var st := Run(START, first + second);
            st.requests == map[] && st.handlerKey == Some(oldKey) && st.ownerKey == Some(newKey)
            && st.lost && !AllPublished(first + second)
  {
    hide Run, AllPublished;
    var first := Request(0, true, true, oldKey, true, [], true, true, true, oldKey, true);
    var second := Request(0, false, true, oldKey, true, [], true, true, true, newKey, false);
    TwoAlone(first, second);
  }

  /** So does an init inside a batch, although nothing fails: the client even gets its half of the new key. */
  lemma BatchedRekeying(oldKey: Key, newKey: Key)
    requires oldKey != newKey
    ensures var first := Request(0, true, true, oldKey, true, [], true, true, true, oldKey, true).Steps();
            var second := Request(0, false, true, oldKey, false, [newKey], true, true, true, newKey, true).Steps();
            var st := Run(START, first + second);
            st.requests == map[] && st.handlerKey == Some(oldKey) && st.ownerKey == Some(newKey)
            && st.lost && !AllPublished(first + second)
  {
    hide Run, AllPublished;
    var first := Request(0, true, true, oldKey, true, [], true, true, true, oldKey, true);
    var second := Request(0, false, true, oldKey, false, [newKey], true, true, true, newKey, true);
    TwoAlone(first, second);
  }

  lemma TwoAlone(first: Request, second: Request)
    requires first.id == second.id
    ensures var mid := Run(START, first.Steps());
            var handler, owner := HandlerAfter(None, first), OwnerAfter(None, None, first);
            var st := Run(START, first.Steps() + second.Steps());
            && Reaches(st, START, HandlerAfter(handler, second), OwnerAfter(handler, owner, second))
            && (st.handlerKey != st.ownerKey ==> st.lost && !AllPublished(first.Steps() + second.Steps()))
  {
    hide Run, AllPublished;
    AloneFromStart(START, first);
    AloneFromStart(Run(START, first.Steps()), second);
    RunsAppend(START, first.Steps(), second.Steps());
    RunKeeps(first.Steps() + second.Steps());
    KeysAgreeIff(first.Steps() + second.Steps());
  }

  // ----- whose key is published -----

  predicate QuietBetween(steps: seq<Step>, lo: nat, hi: nat)
    requires hi <= |steps|
  {
    forall m | lo < m < hi :: !WritesAt(steps, m)
  }

  lemma {:induction false} LastWrite(steps: seq<Step>, w: nat, n: nat)
    requires w < n <= |steps| && WritesAt(steps, w) && QuietBetween(steps, w, n)
    ensures Run(START, steps[..n]).ownerKey == KeyOf(steps[w])
  {
    hide Run, Next, Writes;
    assert steps[..n][..n - 1] == steps[..n - 1];
    LastStep(START, steps[..n]);
    OwnerKeyStep(Run(START, steps[..n - 1]), steps[n - 1]);
    if w < n - 1 {
      LastWrite(steps, w, n - 1);
      assert !WritesAt(steps, n - 1);
    }
  }

  lemma OwnerKeyStep(st: State, step: Step)
    ensures Next(st, step).ownerKey == if Writes(st, step) then KeyOf(step) else st.ownerKey
  {
  }

  lemma {:induction false} FindLastWrite(steps: seq<Step>, w: nat, n: nat) returns (last: nat)
    requires w < n <= |steps| && WritesAt(steps, w)
    ensures w <= last < n && WritesAt(steps, last) && QuietBetween(steps, last, n)
    ensures last == w <==> QuietBetween(steps, w, n)
  {
    hide WritesAt;
    if w == n - 1 {
      last := w;
    } else if WritesAt(steps, n - 1) {
      last := n - 1;
    } else {
      last := FindLastWrite(steps, w, n - 1);
    }
  }

  /**
   What a publication at p makes of an init that wrote its key at w, its own or anybody's, if that key was
   not agreed on again: the handler has this key if and only if no key was written in between.
   */
  lemma PublishedKeyIff(steps: seq<Step>, w: nat, p: nat)
    requires w < p < |steps| && WritesAt(steps, w) && PublishesAt(steps, p)
    requires forall m | w < m < p && WritesAt(steps, m) :: KeyOf(steps[m]) != KeyOf(steps[w])
    ensures Run(START, steps[..p + 1]).handlerKey == KeyOf(steps[w]) <==> QuietBetween(steps, w, p)
  {
    hide Run, Next, Writes, Publishes, QuietBetween;
    var last := FindLastWrite(steps, w, p);
    LastWrite(steps, last, p);
    assert steps[..p + 1][..p] == steps[..p];
    LastStep(START, steps[..p + 1]);
    PublishStep(Run(START, steps[..p]), steps[p]);
  }

  lemma PublishStep(st: State, step: Step)
    requires Publishes(st, step)
    ensures Next(st, step).handlerKey == st.ownerKey
  {
  }

  function CrossedSteps(first: Key, second: Key): (steps: seq<Step>)
    ensures |steps| == 6
  {
    [Arrive(0, true), Arrive(1, true), Handle(0, true, true, true, first), Handle(1, true, true, true, second),
     Encrypt(0, true), Publish(0)]
  }

  /** Two requests, that numbered 0 in one phase and that numbered 1 in another. */
  function TwoRequests(owner: Option<Key>, unsynced: bool, p: Phase, p': Phase): State {
    State(None, owner, map[0 := p, 1 := p'], false, unsynced, false)
  }

  const READY := Ready(true, false, false)
  const HANDLED := Handled(true, false, true, true)

  lemma CrossedStart(first: Key, second: Key)
    ensures Run(START, CrossedSteps(first, second)[..2]) == TwoRequests(None, false, READY, READY)
  {
    TwoSteps(START, CrossedSteps(first, second)[..2]);
    hide Run;
  }

  lemma CrossedHandles(first: Key, second: Key)
    ensures var steps := CrossedSteps(first, second);
            var handled := TwoRequests(Some(first), true, HANDLED, READY);
            && Next(TwoRequests(None, false, READY, READY), steps[2]) == handled
            && Next(handled, steps[3]) == TwoRequests(Some(second), true, HANDLED, HANDLED)
  {
  }

  lemma CrossedEnd(first: Key, second: Key)
    ensures var steps := CrossedSteps(first, second);
            var answered := TwoRequests(Some(second), true, Answered(true, true, true), HANDLED);
            && Next(TwoRequests(Some(second), true, HANDLED, HANDLED), steps[4]) == answered
            && Publishes(answered, steps[5]) && Next(answered, steps[5]).handlerKey == Some(second)
  {
  }

  /** Two clients at once: the first one's init succeeds, and the handler takes the second one's key. */
  lemma CrossedInits(first: Key, second: Key)
    ensures var steps := CrossedSteps(first, second);
            && WritesAt(steps, 2) && KeyOf(steps[2]) == Some(first) && PublishesAt(steps, 5)
            && steps[2].id == steps[5].id && Run(START, steps).handlerKey == Some(second)
  {
    hide Run, Next, TwoRequests, Publishes;
    var steps := CrossedSteps(first, second);
    CrossedStart(first, second);
    CrossedHandles(first, second);
    CrossedEnd(first, second);
    OneMore(steps, 2);
    OneMore(steps, 3);
    OneMore(steps, 4);
    OneMore(steps, 5);
    assert steps[..6] == steps;
    assert Writes(TwoRequests(None, false, READY, READY), steps[2]) by { CrossedWrites(); }
  }

  lemma CrossedWrites()
    ensures forall key :: Writes(TwoRequests(None, false, READY, READY), Handle(0, true, true, true, key))
  {
  }

  lemma OneMore(steps: seq<Step>, n: nat)
    requires n < |steps|
    ensures Run(START, steps[..n + 1]) == Next(Run(START, steps[..n]), steps[n])
  {
    hide Run, Next;
    LastStep(START, steps[..n + 1]);
    assert steps[..n + 1][..n] == steps[..n];
  }
}
