/**
 Sending through the transport: locking the slate's inputs, publishing it, and rolling back when that
 fails; and the publishing side, which tries its listener a few times.
 */
module SendTransaction {
  import opened Common
  import opened Outputs

  datatype TxKind = SentCreated | Received | SentCancelled | ReceivedCancelled | Other

  datatype TxEntry = TxEntry(id: nat, slateId: nat, kind: TxKind, confirmed: bool)

  /** Outputs by key, the transaction log, and the next log id. */
  datatype WalletState = WalletState(outputs: map<nat, OutputData>, txs: seq<TxEntry>, nextLogId: nat)

  /** The slate and the wallet's own record of it: the inputs it spends and the change it makes. */
  datatype SlateContext = SlateContext(id: nat, inputs: set<nat>, change: map<nat, nat>, height: nat)

  // ----- locking and cancelling -----

  /** Either nothing was written, or everything was and storing the transaction file failed or not. */
  datatype LockOutcome = LockDone | LockRefused | LockedNotStored

  function ChangeOutput(value: nat, height: nat, log: nat): OutputData {
    OutputData(value, Unconfirmed, height, 0, false, Some(log), "")
  }

  /** Inputs locked and the change recorded, all under a new log entry. */
  function Locking(w: WalletState, s: SlateContext): WalletState
    requires s.inputs <= w.outputs.Keys
  {
    var log := w.nextLogId;
    WalletState(
      map k | k in w.outputs.Keys + s.change.Keys ::
        if k in s.change then ChangeOutput(s.change[k], s.height, log)
        else if k in s.inputs then w.outputs[k].(status := Locked, txLogEntry := Some(log))
        else w.outputs[k],
      w.txs + [TxEntry(log, s.id, SentCreated, false)],
      log + 1)
  }

  function TxLockOutputs(w: WalletState, s: SlateContext, o: LockOutcome): (bool, WalletState)
    requires s.inputs <= w.outputs.Keys
  {
    match o
    case LockRefused => (false, w)
    case LockedNotStored => (false, Locking(w, s))
    case LockDone => (true, Locking(w, s))
  }

  datatype CancelResult = Cancelled | DoesntExist | CancelError

  function EntriesOf(txs: seq<TxEntry>, slateId: nat): seq<nat> {
    if txs == [] then [] else
      EntriesOf(txs[..|txs| - 1], slateId) + (if txs[|txs| - 1].slateId == slateId then [|txs| - 1] else [])
  }

  lemma {:induction false} EntriesInRange(txs: seq<TxEntry>, slateId: nat)
    ensures forall i | i in EntriesOf(txs, slateId) :: i < |txs| && txs[i].slateId == slateId
  {
    if txs != [] {
      EntriesInRange(txs[..|txs| - 1], slateId);
    }
  }

  /** Of the outputs of the transaction, unconfirmed ones are deleted and locked ones unlocked. */
  function Unlocking(outputs: map<nat, OutputData>, log: nat): map<nat, OutputData> {
    map k | k in outputs && !(outputs[k].txLogEntry == Some(log) && outputs[k].status == Unconfirmed) ::
      if outputs[k].txLogEntry == Some(log) && outputs[k].status == Locked then outputs[k].(status := Unspent)
      else outputs[k]
  }

  function CancelTx(w: WalletState, slateId: nat, nodeReachable: bool, stored: bool): (CancelResult, WalletState) {
    if !nodeReachable then (CancelError, w) else
      var entries := EntriesOf(w.txs, slateId);
      if |entries| != 1 then (DoesntExist, w) else
        EntriesInRange(w.txs, slateId);
        assert entries[0] in entries;
        var i := entries[0];
        var tx := w.txs[i];
        if (tx.kind != SentCreated && tx.kind != Received) || tx.confirmed || !stored then (CancelError, w)
        else
          var kind := if tx.kind == SentCreated then SentCancelled else ReceivedCancelled;
          (Cancelled, w.(outputs := Unlocking(w.outputs, tx.id), txs := w.txs[i := tx.(kind := kind)]))
  }

  // ----- sending -----

  /** What comes back from the transport, if anything does. */
  datatype Response = Lost | Reply(ok: bool, pending: bool)

  datatype Events = Events(
    prepared: bool,
    hasDestination: bool,
    addressOk: bool,
    serialized: bool,
    lock: LockOutcome,
    response: Response,
    nodeReachable: bool,
    cancelStored: bool)

  datatype SendResult = Sent(pending: bool) | NotSent(rollbackFailed: bool)

  function Rollback(w: WalletState, s: SlateContext, e: Events): (SendResult, WalletState) {
    var (r, w') := CancelTx(w, s.id, e.nodeReachable, e.cancelStored);
    (NotSent(r == CancelError), w')
  }

  function Send(w: WalletState, s: SlateContext, e: Events): (SendResult, WalletState)
    requires s.inputs <= w.outputs.Keys
  {
    if !e.prepared || !e.hasDestination || !e.addressOk || !e.serialized then (NotSent(false), w) else
      var (locked, w1) := TxLockOutputs(w, s, e.lock);
      if !locked then Rollback(w1, s, e)
      else
        match e.response
        case Lost => Rollback(w1, s, e)
        case Reply(ok, pending) => if !ok then Rollback(w1, s, e) else (SendResult.Sent(pending), w1)
  }

  /** A sending wallet; its state changes only through locking and cancelling. */
  class Wallet {
    var state: WalletState

    constructor (w: WalletState)
      ensures state == w
    {
      state := w;
    }

    method LockOutputs(s: SlateContext, o: LockOutcome) returns (ok: bool)
      requires s.inputs <= state.outputs.Keys
      modifies this
      ensures (ok, state) == TxLockOutputs(old(state), s, o)
    {
      if o == LockRefused {
        return false;
      }
      state := Locking(state, s);
      ok := o == LockDone;
    }

    method Cancel(s: SlateContext, e: Events) returns (r: SendResult)
      modifies this
      ensures (r, state) == Rollback(old(state), s, e)
    {
      var (c, w') := CancelTx(state, s.id, e.nodeReachable, e.cancelStored);
      state := w';
      match c {
        case Cancelled => r := NotSent(false);
        case DoesntExist => r := NotSent(false);
        case CancelError => r := NotSent(true);
      }
    }

    method SendWithTransport(s: SlateContext, e: Events) returns (r: SendResult)
      requires s.inputs <= state.outputs.Keys
      modifies this
      ensures (r, state) == Send(old(state), s, e)
    {
      if !e.prepared {
        return NotSent(false);
      }
      if !e.hasDestination || !e.addressOk || !e.serialized {
        return NotSent(false);
      }
      var locked := LockOutputs(s, e.lock);
      if !locked {
        r := Cancel(s, e);
        return;
      }
      match e.response {
        case Lost =>
          r := Cancel(s, e);
        case Reply(ok, pending) =>
          if !ok {
            r := Cancel(s, e);
          } else {
            r := SendResult.Sent(pending);
          }
      }
    }
  }

  // ----- what sending keeps -----

  /** The slate was just prepared from this wallet: unspent inputs, new change keys, new ids. */
  predicate Ready(w: WalletState, s: SlateContext) {
    && s.inputs <= w.outputs.Keys
    && (forall k | k in s.inputs :: w.outputs[k].status == Unspent)
    && s.change.Keys !! w.outputs.Keys
    && (forall k | k in w.outputs :: w.outputs[k].txLogEntry.Some? ==> w.outputs[k].txLogEntry.value < w.nextLogId)
    && (forall i | 0 <= i < |w.txs| :: w.txs[i].slateId != s.id)
  }

  /** Equal but for the log entry that an output was last part of. */
  predicate SameButLog(a: OutputData, b: OutputData) {
    a.(txLogEntry := b.txLogEntry) == b
  }

  /** The same outputs with the same values and statuses; only inputs of the slate may name another entry. */
  predicate SameOutputs(w: WalletState, w': WalletState, s: SlateContext) {
    && w'.outputs.Keys == w.outputs.Keys
    && forall k | k in w.outputs ::
         SameButLog(w.outputs[k], w'.outputs[k]) && (k !in s.inputs ==> w'.outputs[k] == w.outputs[k])
  }

  predicate InputsLocked(w: WalletState, s: SlateContext) {
    s.inputs <= w.outputs.Keys && forall k | k in s.inputs :: w.outputs[k].status == Locked
  }

  lemma {:induction false} NoEntries(txs: seq<TxEntry>, slateId: nat)
    requires forall i | 0 <= i < |txs| :: txs[i].slateId != slateId
    ensures EntriesOf(txs, slateId) == []
  {
    if txs != [] {
      NoEntries(txs[..|txs| - 1], slateId);
    }
  }

  /** The one entry of the log that belongs to the slate. */
  predicate OnlyEntry(txs: seq<TxEntry>, slateId: nat, i: nat) {
    i < |txs| && forall j | 0 <= j < |txs| :: txs[j].slateId == slateId <==> j == i
  }

  lemma {:induction false} OneEntry(txs: seq<TxEntry>, slateId: nat, i: nat)
    requires OnlyEntry(txs, slateId, i)
    ensures EntriesOf(txs, slateId) == [i]
  {
    var n := |txs| - 1;
    if i == n {
      NoEntries(txs[..n], slateId);
    } else {
      OneEntry(txs[..n], slateId, i);
    }
  }

  lemma {:induction false} EntriesComplete(txs: seq<TxEntry>, slateId: nat)
    ensures forall j | 0 <= j < |txs| && txs[j].slateId == slateId :: j in EntriesOf(txs, slateId)
  {
    if txs != [] {
      var n := |txs| - 1;
      EntriesComplete(txs[..n], slateId);
      assert forall j | 0 <= j < n :: txs[j] == txs[..n][j];
    }
  }

  lemma OnlyEntryIff(txs: seq<TxEntry>, slateId: nat)
    ensures |EntriesOf(txs, slateId)| == 1 <==> exists i: nat :: OnlyEntry(txs, slateId, i)
  {
    var entries := EntriesOf(txs, slateId);
    if |entries| == 1 {
      EntriesInRange(txs, slateId);
      EntriesComplete(txs, slateId);
      hide EntriesOf;
      assert entries[0] in entries;
      assert OnlyEntry(txs, slateId, entries[0]);
    }
    if i: nat :| OnlyEntry(txs, slateId, i) {
      OneEntry(txs, slateId, i);
    }
  }

  /** What an entry becomes that is cancelled, if it can be. */
  function CancelledKind(kind: TxKind): Option<TxKind> {
    match kind
    case SentCreated => Some(SentCancelled)
    case Received => Some(ReceivedCancelled)
    case _ => None
  }

  /**
   Exactly when cancelling succeeds: with the node reachable and the store working, for the only entry of
   the slate, unconfirmed and created by sending or receiving. That entry then says so, and no other entry
   changes; when cancelling does not succeed, nothing does.
   */
  lemma CancelTxIff(w: WalletState, slateId: nat, nodeReachable: bool, stored: bool)
    ensures var (r, w') := CancelTx(w, slateId, nodeReachable, stored);
            && (r == DoesntExist <==> nodeReachable && !exists i: nat :: OnlyEntry(w.txs, slateId, i))
            && (r != Cancelled ==> w' == w)
            && (!nodeReachable ==> r == CancelError)
            && forall i: nat | OnlyEntry(w.txs, slateId, i) ::
                 var kind := CancelledKind(w.txs[i].kind);
                 && (r == Cancelled <==> nodeReachable && stored && kind.Some? && !w.txs[i].confirmed)
                 && (r == Cancelled ==>
                       && w'.txs == w.txs[i := TxEntry(w.txs[i].id, slateId, kind.value, false)]
                       && w'.nextLogId == w.nextLogId)
  {
    OnlyEntryIff(w.txs, slateId);
    forall i: nat | OnlyEntry(w.txs, slateId, i) ensures EntriesOf(w.txs, slateId) == [i] {
      OneEntry(w.txs, slateId, i);
    }
    hide EntriesOf, Unlocking;
  }

  /** After a rollback the log ends with the cancelled entry, and there is nothing left to cancel. */
  lemma RolledBackLog(w: WalletState, s: SlateContext, again: Events)
    requires Ready(w, s)
    ensures var (r, w') := CancelTx(Locking(w, s), s.id, true, true);
            && r == Cancelled
            && w'.txs == w.txs + [TxEntry(w.nextLogId, s.id, SentCancelled, false)] && w'.nextLogId == w.nextLogId + 1
            && CancelTx(w', s.id, again.nodeReachable, again.cancelStored) == (CancelError, w')
  {
    var locked := Locking(w, s);
    var n := |w.txs|;
    assert OnlyEntry(locked.txs, s.id, n);
    CancelTxIff(locked, s.id, true, true);
    var w' := CancelTx(locked, s.id, true, true).1;
    assert OnlyEntry(w'.txs, s.id, n);
    CancelTxIff(w', s.id, again.nodeReachable, again.cancelStored);
    hide CancelTx;
    assert w'.txs == w.txs + [TxEntry(w.nextLogId, s.id, SentCancelled, false)];
  }

  /** What a send that goes out leaves: a new entry, the inputs locked under it, and the change unconfirmed. */
  lemma SentLeaves(w: WalletState, s: SlateContext, e: Events)
    requires Ready(w, s) && Send(w, s, e).0.Sent?
    ensures var w' := Send(w, s, e).1;
            && w'.txs == w.txs + [TxEntry(w.nextLogId, s.id, SentCreated, false)] && w'.nextLogId == w.nextLogId + 1
            && w'.outputs.Keys == w.outputs.Keys + s.change.Keys
            && (forall k | k in s.inputs ::
                  w'.outputs[k] == w.outputs[k].(status := Locked, txLogEntry := Some(w.nextLogId)))
            && (forall k | k in w.outputs && k !in s.inputs :: w'.outputs[k] == w.outputs[k])
            && (forall k | k in s.change ::
                  var o := w'.outputs[k];
                  o.value == s.change[k] && o.status == Unconfirmed && o.height == s.height
                  && o.txLogEntry == Some(w.nextLogId) && !o.isCoinbase && o.lockHeight == 0)
            && Send(w, s, e).0.pending == e.response.pending
  {
    hide CancelTx;
  }

  /** Cancelling undoes locking, whatever was locked. */
  lemma CancelUndoesLock(w: WalletState, s: SlateContext, stored: bool)
    requires Ready(w, s)
    ensures var (r, w') := CancelTx(Locking(w, s), s.id, true, stored);
            if stored then r == Cancelled && SameOutputs(w, w', s) else r == CancelError && w' == Locking(w, s)
  {
    var locked := Locking(w, s);
    NoEntries(w.txs, s.id);
    assert locked.txs[..|locked.txs| - 1] == w.txs;
    assert EntriesOf(locked.txs, s.id) == [|w.txs|];
    if stored {
      UnlockUndoesLock(w, s);
    }
  }

  lemma UnlockUndoesLock(w: WalletState, s: SlateContext)
    requires Ready(w, s)
    ensures SameOutputs(w, Locking(w, s).(outputs := Unlocking(Locking(w, s).outputs, w.nextLogId)), s)
  {
    var locked := Locking(w, s).outputs;
    var unlocked := Unlocking(locked, w.nextLogId);
    forall k ensures k in unlocked <==> k in w.outputs {
      if k in w.outputs {
        assert locked[k].txLogEntry == Some(w.nextLogId) ==> k in s.inputs;
      }
    }
  }

  lemma CancelWithoutEntry(w: WalletState, s: SlateContext, e: Events)
    requires Ready(w, s)
    ensures Rollback(w, s, e) == (NotSent(!e.nodeReachable), w)
  {
    NoEntries(w.txs, s.id);
  }

  /**
   At every point of failure: an error that reports no rollback failure leaves all outputs as they were;
   one that does leaves them as they were or locked; success leaves the slate's inputs locked.
   */
  lemma SendConserves(w: WalletState, s: SlateContext, e: Events)
    requires Ready(w, s)
    ensures var (r, w') := Send(w, s, e);
            && (r == NotSent(false) ==> SameOutputs(w, w', s))
            && (r == NotSent(true) ==> w' == w || w' == Locking(w, s))
            && (r.Sent? ==> w' == Locking(w, s) && InputsLocked(w', s))
  {
    hide Locking, CancelTx, SameOutputs, Ready;
    SameAsItself(w, s);
    CancelWithoutEntry(w, s, e);
    assert InputsLocked(Locking(w, s), s) by { LockingLocks(w, s); }
    if e.nodeReachable {
      CancelUndoesLock(w, s, e.cancelStored);
    } else {
      Unreachable(Locking(w, s), s, e);
    }
  }

  lemma Unreachable(w: WalletState, s: SlateContext, e: Events)
    requires !e.nodeReachable
    ensures CancelTx(w, s.id, e.nodeReachable, e.cancelStored) == (CancelError, w)
  {
  }

  lemma SameAsItself(w: WalletState, s: SlateContext)
    requires Ready(w, s)
    ensures SameOutputs(w, w, s) && s.inputs <= w.outputs.Keys
  {
  }

  lemma LockingLocks(w: WalletState, s: SlateContext)
    requires Ready(w, s)
    ensures InputsLocked(Locking(w, s), s)
  {
  }

  // ----- totals -----

  /** The wallet's outputs in some order of keys. */
  function Listing(w: WalletState, keys: seq<nat>): (os: seq<OutputData>)
    requires forall i | 0 <= i < |keys| :: keys[i] in w.outputs
    ensures |os| == |keys|
  {
    seq(|keys|, i requires 0 <= i < |keys| => w.outputs[keys[i]])
  }

  lemma SameButLogCounts(a: OutputData, b: OutputData, height: nat)
    requires SameButLog(a, b)
    ensures Counted(a) == Counted(b) && Spendable(a, height) == Spendable(b, height)
  {
  }

  lemma {:induction false} SameTotals(w: WalletState, w': WalletState, s: SlateContext, keys: seq<nat>, height: nat)
    requires SameOutputs(w, w', s) && forall i | 0 <= i < |keys| :: keys[i] in w.outputs
    ensures CountedSum(Listing(w, keys)) == CountedSum(Listing(w', keys))
    ensures SpendableSum(Listing(w, keys), height) == SpendableSum(Listing(w', keys), height)
  {
    hide Counted, Spendable;
    if keys != [] {
      var n := |keys| - 1;
      SameTotals(w, w', s, keys[..n], height);
      assert Listing(w, keys)[..n] == Listing(w, keys[..n]);
      assert Listing(w', keys)[..n] == Listing(w', keys[..n]);
      SameButLogCounts(w.outputs[keys[n]], w'.outputs[keys[n]], height);
    }
  }

  /** A send that fails cleanly changes neither balance, however the outputs are listed. */
  lemma FailedSendKeepsTotals(w: WalletState, s: SlateContext, e: Events, keys: seq<nat>, height: nat)
    requires Ready(w, s) && Send(w, s, e).0 == NotSent(false)
    requires forall i | 0 <= i < |keys| :: keys[i] in w.outputs
    ensures var w' := Send(w, s, e).1;
            && (forall i | 0 <= i < |keys| :: keys[i] in w'.outputs)
            && CountedSum(Listing(w', keys)) == CountedSum(Listing(w, keys))
            && SpendableSum(Listing(w', keys), height) == SpendableSum(Listing(w, keys), height)
  {
    hide Send, CountedSum, SpendableSum;
    SendConserves(w, s, e);
    SameTotals(w, Send(w, s, e).1, s, keys, height);
  }

  // ----- publishing -----

  datatype Attempt = OpenError | ChannelError | Finalized | SendError(message: string)

  datatype Published = PublishedSent | PublishedPending | PublishError

  const LISTENER_START_ATTEMPTS := 3

  predicate StandsAt(text: string, part: string, i: nat) {
    i + |part| <= |text| && text[i..i + |part|] == part
  }

  predicate Contains(text: string, part: string) {
    exists i | 0 <= i <= |text| :: StandsAt(text, part, i)
  }

  predicate IsPending(message: string) {
    Contains(message, "was published") || Contains(message, "publish outcome is uncertain")
  }

  predicate NotReady(message: string) {
    Contains(message, "Epicbox listener is not ready")
  }

  /** An attempt after which another is made, if there are attempts left. */
  predicate Retried(a: Attempt) {
    a.SendError? && !IsPending(a.message) && NotReady(a.message)
  }

  function Judged(a: Attempt): Published {
    match a
    case Finalized => PublishedSent
    case SendError(message) => if IsPending(message) then PublishedPending else PublishError
    case _ => PublishError
  }

  /** The attempt that decides: the first that is not retried, or the last. */
  function Deciding(attempts: nat -> Attempt, k: nat): (d: nat)
    requires k < LISTENER_START_ATTEMPTS
    ensures k <= d < LISTENER_START_ATTEMPTS
    ensures forall j | k <= j < d :: Retried(attempts(j))
    ensures d < LISTENER_START_ATTEMPTS - 1 ==> !Retried(attempts(d))
    decreases LISTENER_START_ATTEMPTS - k
  {
    if k + 1 < LISTENER_START_ATTEMPTS && Retried(attempts(k)) then Deciding(attempts, k + 1) else k
  }

  /** The listener loop gives the judgement of the deciding attempt; its last line is never reached. */
  method PublishWithListener(attempts: nat -> Attempt) returns (r: Published)
    ensures r == Judged(attempts(Deciding(attempts, 0)))
  {
    hide IsPending, NotReady;
    for attempt := 0 to LISTENER_START_ATTEMPTS
      invariant attempt < LISTENER_START_ATTEMPTS && Deciding(attempts, 0) == Deciding(attempts, attempt)
    {
      match attempts(attempt) {
        case OpenError => return PublishError;
        case ChannelError => return PublishError;
        case Finalized => return PublishedSent;
        case SendError(message) =>
          if IsPending(message) {
            return PublishedPending;
          }
          if NotReady(message) && attempt + 1 < LISTENER_START_ATTEMPTS {
            // wait a second and try again
          } else {
            return PublishError;
          }
      }
    }
    assert false;
    r := PublishError;
  }

  lemma ContainsIff(text: string, part: string)
    ensures Contains(text, part) <==> exists before: string, after: string :: text == before + part + after
  {
    if Contains(text, part) {
      var i :| 0 <= i <= |text| && StandsAt(text, part, i);
      assert text == text[..i] + part + text[i + |part|..];
    }
    if before: string, after: string :| text == before + part + after {
      assert text[|before|..|before| + |part|] == part;
      assert StandsAt(text, part, |before|);
    }
  }

  /** What a single attempt is judged, over all of them and the texts of their messages. */
  lemma JudgedIff(a: Attempt)
    ensures Judged(a) == PublishedSent <==> a == Finalized
    ensures Judged(a) == PublishedPending <==>
              a.SendError?
              && (Contains(a.message, "was published") || Contains(a.message, "publish outcome is uncertain"))
    ensures Retried(a) <==>
              a.SendError? && Judged(a) == PublishError && Contains(a.message, "Epicbox listener is not ready")
  {
    hide Contains;
  }

  /**
   There are three attempts: the slate is sent, or judged pending, exactly when one of them is judged so and
   all before it found the listener not ready.
   */
  lemma ThreeAttempts(attempts: nat -> Attempt, p: Published)
    requires p != PublishError
    ensures Judged(attempts(Deciding(attempts, 0))) == p <==>
              || Judged(attempts(0)) == p
              || (Retried(attempts(0)) && Judged(attempts(1)) == p)
              || (Retried(attempts(0)) && Retried(attempts(1)) && Judged(attempts(2)) == p)
  {
    JudgedIff(attempts(0));
    JudgedIff(attempts(1));
    hide Judged, Retried, Contains;
    assert Deciding(attempts, 2) == 2;
    assert Deciding(attempts, 1) == if Retried(attempts(1)) then 2 else 1;
  }

  function ReplyTo(p: Published): Response {
    Reply(p != PublishError, p == PublishedPending)
  }

  /** Before anything is written, or after writing was refused, there is nothing to roll back. */
  predicate Locks(e: Events) {
    e.prepared && e.hasDestination && e.addressOk && e.serialized && e.lock != LockRefused
  }

  predicate WentOut(e: Events) {
    e.lock == LockDone && e.response.Reply? && e.response.ok
  }

  lemma LockingShows(w: WalletState, s: SlateContext)
    requires Ready(w, s) && (s.inputs != {} || s.change != map[])
    ensures !SameOutputs(w, Locking(w, s), s)
  {
    var outputs := Locking(w, s).outputs;
    if s.inputs != {} {
      var k :| k in s.inputs;
      assert k !in s.change && outputs[k].status == Locked;
    } else {
      var k :| k in s.change;
      assert k in outputs && k !in w.outputs;
    }
  }

  /**
   The exact condition: after a send all outputs are as they were if and only if nothing was locked, or
   the send failed and the transaction could be cancelled.
   */
  lemma RolledBackIff(w: WalletState, s: SlateContext, e: Events)
    requires Ready(w, s) && (s.inputs != {} || s.change != map[])
    ensures SameOutputs(w, Send(w, s, e).1, s)
            <==> !Locks(e) || (!WentOut(e) && e.nodeReachable && e.cancelStored)
  {
    hide Locking, CancelTx, SameOutputs, Ready;
    SameAsItself(w, s);
    CancelWithoutEntry(w, s, e);
    LockingShows(w, s);
    if e.nodeReachable {
      CancelUndoesLock(w, s, e.cancelStored);
    } else {
      Unreachable(Locking(w, s), s, e);
    }
  }

  /**
   So a slate that the publishing side judged sent or pending is rolled back exactly when its reply does
   not reach the wallet and cancelling works: the inputs are then released although the slate is out.
   */
  lemma PublishedRolledBackIff(w: WalletState, s: SlateContext, e: Events, attempts: nat -> Attempt)
    requires Ready(w, s) && (s.inputs != {} || s.change != map[])
    requires Locks(e) && e.lock == LockDone
    requires Judged(attempts(Deciding(attempts, 0))) != PublishError
    requires e.response == ReplyTo(Judged(attempts(Deciding(attempts, 0)))) || e.response == Lost
    ensures var (r, w') := Send(w, s, e);
            var rolledBack := e.response == Lost && e.nodeReachable && e.cancelStored;
            && (SameOutputs(w, w', s) <==> rolledBack)
            && (!rolledBack ==> w' == Locking(w, s) && InputsLocked(w', s))
            && r == (if e.response == Lost then NotSent(!rolledBack)
                     else SendResult.Sent(Judged(attempts(Deciding(attempts, 0))) == PublishedPending))
  {
    hide Locking, CancelTx, SameOutputs, Ready, Judged, Deciding;
    SameAsItself(w, s);
    LockingLocks(w, s);
    RolledBackIff(w, s, e);
    if e.nodeReachable {
      CancelUndoesLock(w, s, e.cancelStored);
    } else {
      Unreachable(Locking(w, s), s, e);
    }
  }

  /** A slate whose publishing was judged an error is rolled back exactly when cancelling works. */
  lemma UnpublishedRolledBackIff(w: WalletState, s: SlateContext, e: Events)
    requires Ready(w, s) && (s.inputs != {} || s.change != map[])
    requires Locks(e) && e.response == ReplyTo(PublishError)
    ensures SameOutputs(w, Send(w, s, e).1, s) <==> e.nodeReachable && e.cancelStored
    ensures Send(w, s, e).0.NotSent?
  {
    hide Locking, CancelTx, SameOutputs, Ready;
    SameAsItself(w, s);
    RolledBackIff(w, s, e);
  }

  /** The slate is out, its reply is lost, and the one output of the wallet is unspent again. */
  lemma LostReplyExample()
    ensures var w := WalletState(map[1 := OutputData(100, Unspent, 5, 0, false, None, "")], [], 0);
            var s := SlateContext(7, {1}, map[2 := 40], 10);
            var e := Events(true, true, true, true, LockDone, Lost, true, true);
            var attempts := (k: nat) => Finalized;
            var (r, w') := Send(w, s, e);
            && Judged(attempts(Deciding(attempts, 0))) == PublishedSent
            && r == NotSent(false) && w'.outputs.Keys == {1} && w'.outputs[1].status == Unspent
  {
    var w := WalletState(map[1 := OutputData(100, Unspent, 5, 0, false, None, "")], [], 0);
    var s := SlateContext(7, {1}, map[2 := 40], 10);
    var e := Events(true, true, true, true, LockDone, Lost, true, true);
    var attempts := (k: nat) => Finalized;
    assert w.outputs.Keys == {1} && s.change.Keys == {2};
    assert Ready(w, s);
    hide Send, Ready, Deciding;
    PublishedRolledBackIff(w, s, e, attempts);
    var w' := Send(w, s, e).1;
    assert SameButLog(w.outputs[1], w'.outputs[1]);
  }
}
