/**
 The restore-scan marker: which block heights a wallet claims to have scanned, how snapshots move the
 claim, and when the claim is true.
 */
module RestoreScan {
  import opened Common

  const SUPPORT_START_HEIGHT: nat := 3_540_000
  const RECENT_RESCAN_BLOCKS: nat := 30

  /** The claim: everything from start up to scanned has been scanned. */
  datatype Marker = Marker(start: nat, scanned: nat)

  /** A scan that succeeded; it went from a height up to the chain's tip at that time. */
  datatype Scan = Scan(from: nat, upTo: nat)

  /** The marker file and, for the record, the scans so far and how far the one that began the claim went. */
  datatype State = State(marker: Option<Marker>, scans: seq<Scan>, restoredTo: nat)

  /** How the calls made on the way turn out; chainTip is the node's tip when a scan runs. */
  datatype Outcome = Outcome(removeOk: bool, scanOk: bool, chainTip: nat, initOk: bool, writeOk: bool)

  datatype Verdict = Okay(scanned: bool) | Failed

  function StartHeight(requested: Option<nat>): nat {
    if requested.Some? && requested.value > 0 then requested.value else SUPPORT_START_HEIGHT
  }

  function Max(a: nat, b: nat): nat { if a >= b then a else b }

  function Min(a: nat, b: nat): nat { if a <= b then a else b }

  function SaturatingSub(a: nat, b: nat): nat { if a >= b then a - b else 0 }

  // ----- the two operations -----

  function EnsureRestore(st: State, requested: Option<nat>, o: Outcome): (Verdict, State) {
    var start := StartHeight(requested);
    if st.marker.Some? && st.marker.value.start <= start then (if o.initOk then Okay(false) else Failed, st)
    else
      var removed := if o.removeOk then st.(marker := None) else st;
      if !o.scanOk then (Failed, removed)
      else
        var scanned := removed.(scans := removed.scans + [Scan(start, o.chainTip)]);
        if !o.initOk || !o.writeOk then (Failed, scanned)
        else (Okay(true), scanned.(marker := Some(Marker(start, start)), restoredTo := o.chainTip))
  }

  /** Where a recent scan begins. */
  function ScanFrom(marker: Option<Marker>, restoreStart: nat, tip: nat): nat {
    var from := if marker.Some? && marker.value.scanned > restoreStart
                then SaturatingSub(marker.value.scanned, RECENT_RESCAN_BLOCKS)
                else SaturatingSub(tip, RECENT_RESCAN_BLOCKS);
    Min(Max(from, restoreStart), tip)
  }

  function EnsureRecent(st: State, requested: Option<nat>, tip: nat, o: Outcome): (Verdict, State) {
    if tip == 0 then (Okay(false), st)
    else
      var start := StartHeight(requested);
      var restoreStart := if st.marker.Some? && st.marker.value.start <= start then st.marker.value.start else start;
      if st.marker.Some? && st.marker.value.scanned >= tip then (Okay(false), st)
      else if !o.scanOk then (Failed, st)
      else
        var scanned := st.(scans := st.scans + [Scan(ScanFrom(st.marker, restoreStart, tip), o.chainTip)]);
        if !o.initOk || !o.writeOk then (Failed, scanned)
        else (Okay(true), scanned.(marker := Some(Marker(restoreStart, tip))))
  }

  /** The scanner of one wallet; the marker is a file that both operations overwrite. */
  class Scanner {
    var marker: Option<Marker>
    ghost var scans: seq<Scan>
    ghost var restoredTo: nat

    ghost function Value(): State
      reads this
    {
      State(marker, scans, restoredTo)
    }

    constructor ()
      ensures Value() == State(None, [], 0)
    {
      marker := None;
      scans, restoredTo := [], 0;
    }

    method EnsureRestoreScan(requested: Option<nat>, o: Outcome) returns (v: Verdict)
      modifies this
      ensures (v, Value()) == EnsureRestore(old(Value()), requested, o)
    {
      var start := StartHeight(requested);
      if marker.Some? {
        if marker.value.start <= start {
          return if o.initOk then Okay(false) else Failed;
        }
      }
      if marker.Some? && o.removeOk {
        marker := None;
      }
      if !o.scanOk {
        return Failed;
      }
      scans := scans + [Scan(start, o.chainTip)];
      if !o.initOk {
        return Failed;
      }
      if !o.writeOk {
        return Failed;
      }
      marker := Some(Marker(start, start));
      restoredTo := o.chainTip;
      v := Okay(true);
    }

    method EnsureRecentRestoreScan(requested: Option<nat>, tip: nat, o: Outcome) returns (v: Verdict)
      modifies this
      ensures (v, Value()) == EnsureRecent(old(Value()), requested, tip, o)
    {
      if tip == 0 {
        return Okay(false);
      }
      var start := StartHeight(requested);
      var restoreStart := start;
      if marker.Some? && marker.value.start <= start {
        restoreStart := marker.value.start;
      }
      if marker.Some? && marker.value.scanned >= tip {
        return Okay(false);
      }
      var from := SaturatingSub(tip, RECENT_RESCAN_BLOCKS);
      if marker.Some? && marker.value.scanned > restoreStart {
        from := SaturatingSub(marker.value.scanned, RECENT_RESCAN_BLOCKS);
      }
      from := Min(Max(from, restoreStart), tip);
      if !o.scanOk {
        return Failed;
      }
      scans := scans + [Scan(from, o.chainTip)];
      if !o.initOk {
        return Failed;
      }
      if !o.writeOk {
        return Failed;
      }
      marker := Some(Marker(restoreStart, tip));
      v := Okay(true);
    }
  }

  // ----- snapshots -----

  /** One snapshot request: the restore scan and, if the balance refresh succeeds, the recent scan. */
  datatype Snapshot = Snapshot(
    requested: Option<nat>,
    restore: Outcome,
    refreshOk: bool,
    tip: nat,
    recent: Outcome)
  {
    /** The node's tip when the recent scan runs is not below the height the wallet just confirmed. */
    predicate Plausible() {
      recent.chainTip >= tip
    }

    /** A restore scan does not run while the chain is still below the height it starts from. */
    predicate Reaches() {
      restore.chainTip >= StartHeight(requested)
    }
  }

  function Take(st: State, s: Snapshot): State {
    var (v, restored) := EnsureRestore(st, s.requested, s.restore);
    if v == Failed || !s.refreshOk then restored
    else EnsureRecent(restored, s.requested, s.tip, s.recent).1
  }

  function TakeAll(st: State, ss: seq<Snapshot>): State {
    if ss == [] then st else Take(TakeAll(st, ss[..|ss| - 1]), ss[|ss| - 1])
  }

  const FIRST := State(None, [], 0)

  /**
   A wallet's first restore scan begins at the requested height, or at 3540000, from which on the chain is
   supported, if no height above 0 is requested; it claims that height only if status and marker are written.
   */
  lemma FirstScan(requested: Option<nat>, o: Outcome)
    ensures var start := if requested.None? || requested == Some(0) then 3_540_000 else requested.value;
            EnsureRestore(FIRST, requested, o) ==
              if !o.scanOk then (Failed, FIRST)
              else if o.initOk && o.writeOk then
                (Okay(true), State(Some(Marker(start, start)), [Scan(start, o.chainTip)], o.chainTip))
              else (Failed, FIRST.(scans := [Scan(start, o.chainTip)]))
  {
    assert forall scan: Scan :: [] + [scan] == [scan];
  }

  /**
   Later ones: nothing is scanned if the claim begins at or below the requested height. Otherwise the scan runs
   from that height, and the old claim is gone, unless it could not be removed and something failed after.
   */
  lemma RestoreAgain(st: State, requested: Option<nat>, o: Outcome)
    requires st.marker.Some?
    ensures var start := StartHeight(requested);
            var (v, st') := EnsureRestore(st, requested, o);
            && (st'.scans != st.scans <==> st.marker.value.start > start && o.scanOk)
            && (st'.scans != st.scans ==> st'.scans == st.scans + [Scan(start, o.chainTip)])
            && (st.marker.value.start <= start ==> st' == st && v == (if o.initOk then Okay(false) else Failed))
            && (st.marker.value.start > start ==>
                  && (v == Okay(true) <==> o.scanOk && o.initOk && o.writeOk) && (v != Okay(true) ==> v == Failed)
                  && st'.marker == (if v == Okay(true) then Some(Marker(start, start))
                                    else if o.removeOk then None else st.marker))
  {
    assert forall scan: Scan :: |st.scans + [scan]| > |st.scans|;
  }

  /**
   A recent scan: when it is left out, from which height it runs, and what is claimed afterwards. Without a claim
   that goes beyond its start it begins 30 blocks below the tip, and never below the start or above the tip.
   */
  lemma RecentScans(st: State, requested: Option<nat>, tip: nat, o: Outcome)
    ensures var start := StartHeight(requested);
            var claimed := if st.marker.Some? && st.marker.value.start < start then st.marker.value.start else start;
            var last := if st.marker.Some? && st.marker.value.scanned > claimed then st.marker.value.scanned else tip;
            var from := if tip < claimed then tip else if last < claimed + 30 then claimed else last - 30;
            var (v, st') := EnsureRecent(st, requested, tip, o);
            if tip == 0 || (st.marker.Some? && st.marker.value.scanned >= tip) then v == Okay(false) && st' == st
            else if !o.scanOk then v == Failed && st' == st
            else
              && st'.scans == st.scans + [Scan(from, o.chainTip)] && st'.restoredTo == st.restoredTo
              && (v == Okay(true) <==> o.initOk && o.writeOk) && (v != Okay(true) ==> v == Failed)
              && st'.marker == if v == Okay(true) then Some(Marker(claimed, tip)) else st.marker
  {
  }

  // ----- what every run keeps -----

  /** A claim rests on a scan from its start that succeeded, and does not end before its start. */
  predicate Grounded(st: State) {
    st.marker.Some? ==>
      st.marker.value.start <= st.marker.value.scanned
      && Scan(st.marker.value.start, st.restoredTo) in st.scans
  }

  predicate SameClaim(before: State, after: State) {
    before.marker.Some? && after.marker.Some? && before.marker.value.start == after.marker.value.start
  }

  lemma RestoreKeeps(st: State, requested: Option<nat>, o: Outcome)
    requires Grounded(st)
    ensures var (v, st') := EnsureRestore(st, requested, o);
            && Grounded(st')
            && (v != Failed ==> st'.marker.Some? && st'.marker.value.start <= StartHeight(requested))
            && (st'.marker.Some? ==> st'.marker == st.marker || st'.marker.value.scanned == st'.marker.value.start)
            && st.scans <= st'.scans
            && (st'.marker == st.marker ==> st'.restoredTo == st.restoredTo)
  {
  }

  lemma RecentKeeps(st: State, requested: Option<nat>, tip: nat, o: Outcome)
    requires Grounded(st) && st.marker.Some? && st.marker.value.start <= StartHeight(requested)
    ensures var st' := EnsureRecent(st, requested, tip, o).1;
            && Grounded(st') && SameClaim(st, st')
            && st'.marker.value.scanned >= st.marker.value.scanned
            && st.scans <= st'.scans && st'.restoredTo == st.restoredTo
  {
  }

  lemma TakeKeeps(st: State, s: Snapshot)
    requires Grounded(st)
    ensures Grounded(Take(st, s))
    ensures SameClaim(st, Take(st, s)) ==> Take(st, s).marker.value.scanned >= st.marker.value.scanned
    ensures st.scans <= Take(st, s).scans
  {
    RestoreKeeps(st, s.requested, s.restore);
    var (v, restored) := EnsureRestore(st, s.requested, s.restore);
    if v != Failed && s.refreshOk {
      RecentKeeps(restored, s.requested, s.tip, s.recent);
    }
  }

  /** A claim exists only on the ground of a successful scan from its start, whatever failed on the way. */
  lemma {:induction false} ClaimsAreGrounded(ss: seq<Snapshot>)
    ensures Grounded(TakeAll(FIRST, ss))
  {
    hide Take, Grounded;
    if ss == [] {
      assert Grounded(FIRST) by { FirstGrounded(); }
    } else {
      ClaimsAreGrounded(ss[..|ss| - 1]);
      TakeKeeps(TakeAll(FIRST, ss[..|ss| - 1]), ss[|ss| - 1]);
    }
  }

  lemma FirstGrounded()
    ensures Grounded(FIRST)
  {
  }

  /** As long as its start is kept, a claim never shrinks. */
  lemma ClaimsGrow(ss: seq<Snapshot>, s: Snapshot)
    requires SameClaim(TakeAll(FIRST, ss), TakeAll(FIRST, ss + [s]))
    ensures TakeAll(FIRST, ss + [s]).marker.value.scanned >= TakeAll(FIRST, ss).marker.value.scanned
  {
    assert (ss + [s])[..|ss|] == ss;
    ClaimsAreGrounded(ss);
    TakeKeeps(TakeAll(FIRST, ss), s);
  }

  // ----- coverage -----

  ghost predicate Covered(scans: seq<Scan>, h: nat) {
    exists i | 0 <= i < |scans| :: scans[i].from <= h <= scans[i].upTo
  }

  /** Every height from lo up to but not including hi has been scanned. */
  ghost predicate CoveredUpTo(scans: seq<Scan>, lo: nat, hi: nat) {
    forall h | lo <= h < hi :: Covered(scans, h)
  }

  lemma CoveredMore(scans: seq<Scan>, more: seq<Scan>, lo: nat, hi: nat)
    requires scans <= more && CoveredUpTo(scans, lo, hi)
    ensures CoveredUpTo(more, lo, hi)
  {
    forall h | lo <= h < hi ensures Covered(more, h) {
      assert Covered(scans, h);
      var i :| 0 <= i < |scans| && scans[i].from <= h <= scans[i].upTo;
      assert more[i] == scans[i];
    }
  }

  /** With one more scan that reaches hi, everything is covered exactly when everything before that scan was. */
  lemma CoveredByLast(scans: seq<Scan>, s: Scan, lo: nat, hi: nat)
    requires lo <= s.from <= hi && s.upTo >= hi
    ensures CoveredUpTo(scans + [s], lo, hi + 1) <==> CoveredUpTo(scans, lo, s.from)
  {
    var more := scans + [s];
    if CoveredUpTo(scans, lo, s.from) {
      CoveredMore(scans, more, lo, s.from);
      forall h | s.from <= h < hi + 1 ensures Covered(more, h) {
        assert more[|scans|].from <= h <= more[|scans|].upTo;
      }
    }
    if CoveredUpTo(more, lo, hi + 1) {
      forall h | lo <= h < s.from ensures Covered(scans, h) {
        assert Covered(more, h);
        var i :| 0 <= i < |more| && more[i].from <= h <= more[i].upTo;
        assert i < |scans|;
      }
    }
  }

  /** A claim is true when all heights from its start up to and including its end have been scanned. */
  ghost predicate ClaimTrue(st: State) {
    st.marker.Some? ==> CoveredUpTo(st.scans, st.marker.value.start, st.marker.value.scanned + 1)
  }

  /** The claim of a wallet that has only been restored reaches no further than its start. */
  predicate JustRestored(st: State) {
    st.marker.Some? && st.marker.value.scanned == st.marker.value.start
  }

  /**
   A recent scan that moves the claim begins 30 blocks before the old end or at the start; the new claim
   is true exactly when everything before that scan had been scanned.
   */
  lemma RecentScanCoverage(st: State, requested: Option<nat>, tip: nat, o: Outcome)
    requires Grounded(st) && st.marker.Some? && st.marker.value.start <= StartHeight(requested)
    requires o.chainTip >= tip > st.marker.value.scanned && o.scanOk && o.initOk && o.writeOk
    ensures var st' := EnsureRecent(st, requested, tip, o).1;
            var start := st.marker.value.start;
            var last := if JustRestored(st) then tip else st.marker.value.scanned;
            var from := Max(SaturatingSub(last, RECENT_RESCAN_BLOCKS), start);
            && st'.marker == Some(Marker(start, tip))
            && st'.scans == st.scans + [Scan(from, o.chainTip)]
            && (!JustRestored(st) ==> from <= st.marker.value.scanned)
            && (ClaimTrue(st') <==> CoveredUpTo(st.scans, start, from))
  {
    var start := st.marker.value.start;
    var last := if JustRestored(st) then tip else st.marker.value.scanned;
    var from := Max(SaturatingSub(last, RECENT_RESCAN_BLOCKS), start);
    CoveredByLast(st.scans, Scan(from, o.chainTip), start, tip);
  }

  /**
   The exact condition. Suppose no scan has gone further than the one that began the claim, which is so
   in a wallet that has just been restored on a chain that only grows. Then the first recent scan makes
   the claim true if and only if its tip is at most 31 above the restore scan's, or 30 above the start.
   */
  lemma FirstRecentScanIff(st: State, requested: Option<nat>, tip: nat, o: Outcome)
    requires Grounded(st) && JustRestored(st) && st.marker.value.start <= StartHeight(requested)
    requires forall i | 0 <= i < |st.scans| :: st.scans[i].upTo <= st.restoredTo
    requires o.chainTip >= tip > st.marker.value.scanned && o.scanOk && o.initOk && o.writeOk
    ensures ClaimTrue(EnsureRecent(st, requested, tip, o).1) <==>
            tip <= RECENT_RESCAN_BLOCKS + Max(st.marker.value.start, st.restoredTo + 1)
  {
    RecentScanCoverage(st, requested, tip, o);
    var start := st.marker.value.start;
    var from := Max(SaturatingSub(tip, RECENT_RESCAN_BLOCKS), start);
    var i :| 0 <= i < |st.scans| && st.scans[i] == Scan(start, st.restoredTo);
    if from <= Max(start, st.restoredTo + 1) {
      forall h | start <= h < from ensures Covered(st.scans, h) {
        assert st.scans[i].from <= h <= st.scans[i].upTo;
      }
    } else {
      NotCovered(st.scans, Max(start, st.restoredTo + 1));
    }
  }

  lemma NotCovered(scans: seq<Scan>, h: nat)
    requires forall i | 0 <= i < |scans| :: scans[i].upTo < h
    ensures !Covered(scans, h)
  {
  }

  /** All calls fail, if they are made at all. */
  const NOTHING := Outcome(false, false, 0, false, false)

  lemma TakeTwo(first: Snapshot, second: Snapshot)
    ensures TakeAll(FIRST, [first, second]) == Take(Take(FIRST, first), second)
  {
    hide Take;
    assert [first][..0] == [] && [first, second][..1] == [first];
    assert TakeAll(FIRST, [first]) == Take(FIRST, first);
  }

  /** A gap: restored with the chain at 200, first looked at again at 300; heights 201 to 269 are missed. */
  lemma GapExample()
    ensures var first := Snapshot(Some(100), Outcome(true, true, 200, true, true), false, 0, NOTHING);
            var second := Snapshot(Some(100), NOTHING.(initOk := true), true, 300,
                                   Outcome(true, true, 300, true, true));
            var st := TakeAll(FIRST, [first, second]);
            && first.Plausible() && second.Plausible()
            && st == State(Some(Marker(100, 300)), [Scan(100, 200), Scan(270, 300)], 200)
            && !Covered(st.scans, 250) && !ClaimTrue(st)
  {
    var first := Snapshot(Some(100), Outcome(true, true, 200, true, true), false, 0, NOTHING);
    var second := Snapshot(Some(100), NOTHING.(initOk := true), true, 300, Outcome(true, true, 300, true, true));
    var restored := State(Some(Marker(100, 100)), [Scan(100, 200)], 200);
    var scans := [Scan(100, 200), Scan(270, 300)];
    assert Take(FIRST, first) == restored;
    assert Take(restored, second) == State(Some(Marker(100, 300)), scans, 200);
    TakeTwo(first, second);
    assert !Covered(scans, 250);
    assert !CoveredUpTo(scans, 100, 301);
  }

  // ----- coverage over whole runs -----

  /** In this snapshot, a recent scan after a mere restore comes before the chain has outrun the overlap. */
  predicate Prompt(st: State, s: Snapshot) {
    var (v, restored) := EnsureRestore(st, s.requested, s.restore);
    v != Failed && s.refreshOk && JustRestored(restored) ==>
      s.tip <= RECENT_RESCAN_BLOCKS + Max(restored.marker.value.start, restored.restoredTo + 1)
  }

  predicate AllPrompt(st: State, ss: seq<Snapshot>) {
    ss != [] ==>
      AllPrompt(st, ss[..|ss| - 1])
      && Prompt(TakeAll(st, ss[..|ss| - 1]), ss[|ss| - 1])
      && ss[|ss| - 1].Plausible()
  }

  /** True as far as it goes beyond its start. */
  ghost predicate Sound(st: State) {
    Grounded(st) && (!JustRestored(st) ==> ClaimTrue(st))
  }

  lemma RestoreSound(st: State, requested: Option<nat>, o: Outcome)
    requires Sound(st)
    ensures Sound(EnsureRestore(st, requested, o).1)
  {
    RestoreKeeps(st, requested, o);
    var st' := EnsureRestore(st, requested, o).1;
    if st'.marker.Some? && !JustRestored(st') {
      CoveredMore(st.scans, st'.scans, st.marker.value.start, st.marker.value.scanned + 1);
    }
  }

  lemma RecentSound(st: State, requested: Option<nat>, tip: nat, o: Outcome)
    requires Sound(st) && st.marker.Some? && st.marker.value.start <= StartHeight(requested)
    requires o.chainTip >= tip
    requires JustRestored(st) ==> tip <= RECENT_RESCAN_BLOCKS + Max(st.marker.value.start, st.restoredTo + 1)
    ensures Sound(EnsureRecent(st, requested, tip, o).1)
  {
    RecentKeeps(st, requested, tip, o);
    var st' := EnsureRecent(st, requested, tip, o).1;
    var start := st.marker.value.start;
    if st'.marker == st.marker {
      if !JustRestored(st) {
        CoveredMore(st.scans, st'.scans, start, st.marker.value.scanned + 1);
      }
    } else {
      RecentScanCoverage(st, requested, tip, o);
      var last := if JustRestored(st) then tip else st.marker.value.scanned;
      var from := Max(SaturatingSub(last, RECENT_RESCAN_BLOCKS), start);
      if JustRestored(st) {
        var i :| 0 <= i < |st.scans| && st.scans[i] == Scan(start, st.restoredTo);
        forall h | start <= h < from ensures Covered(st.scans, h) {
          assert st.scans[i].from <= h <= st.scans[i].upTo;
        }
      } else {
        assert CoveredUpTo(st.scans, start, from);
      }
    }
  }

  /** Over whole runs, with any failures, in which no first recent scan comes too late. */
  lemma {:induction false} ClaimsAreSound(ss: seq<Snapshot>)
    requires AllPrompt(FIRST, ss)
    ensures Sound(TakeAll(FIRST, ss))
  {
    hide EnsureRestore, EnsureRecent, Grounded, ClaimTrue, JustRestored, StartHeight, Max;
    if ss == [] {
      assert Sound(FIRST) by { FirstGrounded(); FirstTrue(); }
    } else {
      var before, s := TakeAll(FIRST, ss[..|ss| - 1]), ss[|ss| - 1];
      ClaimsAreSound(ss[..|ss| - 1]);
      RestoreSound(before, s.requested, s.restore);
      RestoreKeeps(before, s.requested, s.restore);
      var (v, restored) := EnsureRestore(before, s.requested, s.restore);
      if v != Failed && s.refreshOk {
        RecentSound(restored, s.requested, s.tip, s.recent);
      }
    }
  }

  /** The scan that began the claim got as far as the claim's start. */
  predicate Reached(st: State) {
    st.marker.Some? ==> st.restoredTo >= st.marker.value.start
  }

  lemma TakeReaches(st: State, s: Snapshot)
    requires Grounded(st) && Reached(st) && s.Reaches()
    ensures Reached(Take(st, s))
  {
    RestoreKeeps(st, s.requested, s.restore);
    var (v, restored) := EnsureRestore(st, s.requested, s.restore);
    assert Reached(restored);
    if v != Failed && s.refreshOk {
      RecentKeeps(restored, s.requested, s.tip, s.recent);
    }
  }

  lemma {:induction false} RunsReach(ss: seq<Snapshot>)
    requires forall i | 0 <= i < |ss| :: ss[i].Reaches()
    ensures Reached(TakeAll(FIRST, ss))
  {
    hide Take, Reached, Grounded;
    if ss == [] {
      assert Reached(FIRST) by { FirstReached(); }
    } else {
      RunsReach(ss[..|ss| - 1]);
      ClaimsAreGrounded(ss[..|ss| - 1]);
      TakeReaches(TakeAll(FIRST, ss[..|ss| - 1]), ss[|ss| - 1]);
    }
  }

  lemma FirstReached()
    ensures Reached(FIRST)
  {
  }

  /**
   In such a run the claim is true exactly when a wallet that has only been restored has its start
   scanned; and it is true in every state if no restore scan runs while the chain is below its start.
   */
  lemma ClaimsAreTrue(ss: seq<Snapshot>)
    requires AllPrompt(FIRST, ss)
    ensures var st := TakeAll(FIRST, ss);
            ClaimTrue(st) <==> (JustRestored(st) ==> Covered(st.scans, st.marker.value.start))
    ensures (forall i | 0 <= i < |ss| :: ss[i].Reaches()) ==> ClaimTrue(TakeAll(FIRST, ss))
  {
    ClaimsAreSound(ss);
    var st := TakeAll(FIRST, ss);
    hide AllPrompt, TakeAll;
    if forall i | 0 <= i < |ss| :: ss[i].Reaches() {
      RunsReach(ss);
      if JustRestored(st) {
        RestoredCovers(st);
      }
    }
  }

  lemma RestoredCovers(st: State)
    requires Grounded(st) && JustRestored(st) && Reached(st)
    ensures Covered(st.scans, st.marker.value.start)
  {
    var i :| 0 <= i < |st.scans| && st.scans[i] == Scan(st.marker.value.start, st.restoredTo);
    assert st.scans[i].from <= st.marker.value.start <= st.scans[i].upTo;
  }

  /** Right after a restore scan the claim is true if and only if the chain had got to its start, now or before. */
  lemma RestoreClaimIff(st: State, requested: Option<nat>, o: Outcome)
    requires EnsureRestore(st, requested, o).0 == Okay(true)
    ensures var st' := EnsureRestore(st, requested, o).1;
            && st'.marker == Some(Marker(StartHeight(requested), StartHeight(requested)))
            && (ClaimTrue(st') <==> o.chainTip >= StartHeight(requested) || Covered(st.scans, StartHeight(requested)))
  {
    var start, st' := StartHeight(requested), EnsureRestore(st, requested, o).1;
    assert st'.scans == st.scans + [Scan(start, o.chainTip)];
    CoveredOrLast(st.scans, Scan(start, o.chainTip), start);
    assert CoveredUpTo(st'.scans, start, start + 1) <==> Covered(st'.scans, start);
  }

  lemma CoveredOrLast(scans: seq<Scan>, s: Scan, h: nat)
    ensures Covered(scans + [s], h) <==> Covered(scans, h) || s.from <= h <= s.upTo
  {
    var more := scans + [s];
    if i :| 0 <= i < |scans| && scans[i].from <= h <= scans[i].upTo {
      assert more[i].from <= h <= more[i].upTo;
    }
    if s.from <= h <= s.upTo {
      assert more[|scans|].from <= h <= more[|scans|].upTo;
    }
    if i :| 0 <= i < |more| && more[i].from <= h <= more[i].upTo {
      assert more[i] == if i < |scans| then scans[i] else s;
    }
  }

  /** Restored from height 100 with the chain at 50: prompt, and yet height 100 is claimed unscanned. */
  lemma EarlyRestoreExample()
    ensures var o := Outcome(true, true, 50, true, true);
            var ss := [Snapshot(Some(100), o, true, 50, o)];
            var st := TakeAll(FIRST, ss);
            && AllPrompt(FIRST, ss)
            && st == State(Some(Marker(100, 100)), [Scan(100, 50)], 50)
            && !Covered(st.scans, 100) && !ClaimTrue(st)
  {
    var o := Outcome(true, true, 50, true, true);
    var ss := [Snapshot(Some(100), o, true, 50, o)];
    assert ss[..0] == [];
    assert AllPrompt(FIRST, []);
    assert TakeAll(FIRST, ss) == State(Some(Marker(100, 100)), [Scan(100, 50)], 50);
    assert !Covered([Scan(100, 50)], 100);
    assert !CoveredUpTo([Scan(100, 50)], 100, 101);
  }

  lemma FirstTrue()
    ensures ClaimTrue(FIRST)
  {
  }
}
