/** Wallet outputs, the balance totals computed from a list of them, and the spent flags of transactions. */
module Outputs {
  import opened Common

  datatype OutputStatus = Unconfirmed | Unspent | Locked | Spent | Deleted

  datatype OutputData = OutputData(
    value: nat,
    status: OutputStatus,
    height: nat,
    lockHeight: nat,
    isCoinbase: bool,
    txLogEntry: Option<nat>,
    commit: string)

  function NumConfirmations(o: OutputData, currentHeight: nat): nat {
    if o.height > currentHeight then 0
    else if o.status == Unconfirmed then 0
    else 1 + (currentHeight - o.height)
  }

  predicate EligibleToSpend(o: OutputData, currentHeight: nat, minimumConfirmations: nat) {
    if o.status == Spent || o.status == Locked then false
    else if o.status == Unconfirmed && o.isCoinbase then false
    else if o.lockHeight > currentHeight then false
    else if o.status == Unspent && NumConfirmations(o, currentHeight) >= minimumConfirmations then true
    else o.status == Unconfirmed && minimumConfirmations == 0
  }

  /** An output has as many confirmations as there are blocks from its own on, and none while unconfirmed. */
  lemma ConfirmationsAre(o: OutputData, currentHeight: nat)
    ensures NumConfirmations(o, currentHeight) ==
              if o.status != Unconfirmed && o.height <= currentHeight then currentHeight + 1 - o.height else 0
  {
  }

  /**
   Exactly when an output may be spent: it is past its lock height, and it is unspent with the wanted
   number of blocks on top of it counting its own, or, if none are wanted, unconfirmed and no reward.
   */
  lemma EligibleIff(o: OutputData, currentHeight: nat, wanted: nat)
    ensures EligibleToSpend(o, currentHeight, wanted) <==>
            o.lockHeight <= currentHeight
            && ((o.status == Unspent && (wanted == 0 || o.height + wanted <= currentHeight + 1))
                || (o.status == Unconfirmed && !o.isCoinbase && wanted == 0))
  {
  }

  /** An output as the wallet holds and updates it. */
  class OutputCell {
    var data: OutputData

    constructor (d: OutputData)
      ensures data == d
    {
      data := d;
    }

    method Lock()
      modifies this
      ensures data == old(data).(status := Locked)
      ensures forall h, m :: !EligibleToSpend(data, h, m)
    {
      data := data.(status := Locked);
    }

    /** Only the first confirmation changes anything; the balance an output counts for stays the same. */
    method MarkUnspent()
      modifies this
      ensures data == Confirmed(old(data)) && Counted(data) == Counted(old(data))
      ensures data != old(data) <==> old(data).status == Unconfirmed
    {
      match data.status {
        case Unconfirmed => data := data.(status := Unspent);
        case _ =>
      }
    }

    /** An output that was unspent or locked counts for nothing and is never eligible again. */
    method MarkSpent()
      modifies this
      ensures data == SpentNow(old(data))
      ensures data != old(data) <==> old(data).status == Unspent || old(data).status == Locked
      ensures old(data).status == Unspent || old(data).status == Locked ==>
                IsSpent(data) && Counted(data) == 0 && forall h, m :: !EligibleToSpend(data, h, m)
    {
      match data.status {
        case Unspent => data := data.(status := Spent);
        case Locked => data := data.(status := Spent);
        case _ =>
      }
    }
  }

  function Confirmed(o: OutputData): OutputData {
    if o.status == Unconfirmed then o.(status := Unspent) else o
  }

  function SpentNow(o: OutputData): OutputData {
    if o.status == Unspent || o.status == Locked then o.(status := Spent) else o
  }

  // ----- totals -----

  /** What one output adds to the total balance. */
  function Counted(o: OutputData): nat {
    if o.status == Unspent || o.status == Unconfirmed then o.value else 0
  }

  /** Which outputs make up the balances: unspent ones, and unconfirmed ones for the total only. */
  lemma BalancesIff(o: OutputData, height: nat)
    requires o.value > 0
    ensures Counted(o) == (if o.status in {Unspent, Unconfirmed} then o.value else 0)
    ensures Spendable(o, height) == o.value <==> o.status == Unspent && o.lockHeight <= height && o.height <= height
    ensures Spendable(o, height) == 0 || Spendable(o, height) == o.value
  {
  }

  /** What it adds to the spendable balance. */
  function Spendable(o: OutputData, height: nat): nat {
    if o.status == Unspent && EligibleToSpend(o, height, 1) then o.value else 0
  }

  function CountedSum(os: seq<OutputData>): nat {
    if os == [] then 0 else CountedSum(os[..|os| - 1]) + Counted(os[|os| - 1])
  }

  function SpendableSum(os: seq<OutputData>, height: nat): nat {
    if os == [] then 0 else SpendableSum(os[..|os| - 1], height) + Spendable(os[|os| - 1], height)
  }

  function Capped(n: nat): nat {
    if n > U64_MAX then U64_MAX else n
  }

  function SaturatingAdd(a: nat, b: nat): nat {
    if a + b > U64_MAX then U64_MAX else a + b
  }

  /** Adding with saturation at each step yields the capped sums. */
  method OutputTotals(outputs: seq<OutputData>, currentHeight: nat) returns (total: nat, spendable: nat)
    ensures total == Capped(CountedSum(outputs))
    ensures spendable == Capped(SpendableSum(outputs, currentHeight))
  {
    total, spendable := 0, 0;
    var i := 0;
    assert outputs[..0] == [];
    while i < |outputs|
      invariant 0 <= i <= |outputs|
      invariant total == Capped(CountedSum(outputs[..i]))
      invariant spendable == Capped(SpendableSum(outputs[..i], currentHeight))
    {
      assert outputs[..i + 1][..i] == outputs[..i];
      var output := outputs[i];
      match output.status {
        case Unspent =>
          total := SaturatingAdd(total, output.value);
          if EligibleToSpend(output, currentHeight, 1) {
            spendable := SaturatingAdd(spendable, output.value);
          }
        case Unconfirmed =>
          total := SaturatingAdd(total, output.value);
        case Locked =>
        case Spent =>
        case Deleted =>
      }
      i := i + 1;
    }
    assert outputs[..i] == outputs;
  }

  /** Nothing is spendable that is not part of the total. */
  lemma {:induction false} SpendableWithinTotal(os: seq<OutputData>, height: nat)
    ensures SpendableSum(os, height) <= CountedSum(os)
    ensures Capped(SpendableSum(os, height)) <= Capped(CountedSum(os))
  {
    if os != [] {
      SpendableWithinTotal(os[..|os| - 1], height);
    }
  }

  /** As the chain grows more becomes spendable, never less. */
  lemma {:induction false} SpendableGrows(os: seq<OutputData>, height: nat, later: nat)
    requires height <= later
    ensures SpendableSum(os, height) <= SpendableSum(os, later)
  {
    if os != [] {
      SpendableGrows(os[..|os| - 1], height, later);
    }
  }

  lemma {:induction false} SumsConcat(a: seq<OutputData>, b: seq<OutputData>, height: nat)
    ensures CountedSum(a + b) == CountedSum(a) + CountedSum(b)
    ensures SpendableSum(a + b, height) == SpendableSum(a, height) + SpendableSum(b, height)
  {
    if b == [] {
      assert a + b == a;
    } else {
      SumsConcat(a, b[..|b| - 1], height);
      assert (a + b)[..|a + b| - 1] == a + b[..|b| - 1];
    }
  }

  /** An output may be counted anywhere in the list. */
  lemma SumsSplit(os: seq<OutputData>, i: nat, height: nat)
    requires i < |os|
    ensures CountedSum(os) == CountedSum(os[..i] + os[i + 1..]) + Counted(os[i])
    ensures SpendableSum(os, height) == SpendableSum(os[..i] + os[i + 1..], height) + Spendable(os[i], height)
  {
    assert os == os[..i] + [os[i]] + os[i + 1..];
    SumsConcat(os[..i] + [os[i]], os[i + 1..], height);
    SumsConcat(os[..i], [os[i]], height);
    SumsConcat(os[..i], os[i + 1..], height);
    assert [os[i]][..0] == [];
  }

  /** The totals do not depend on the order of the outputs. */
  lemma {:induction false} OrderIrrelevant(a: seq<OutputData>, b: seq<OutputData>, height: nat)
    requires multiset(a) == multiset(b)
    ensures CountedSum(a) == CountedSum(b)
    ensures SpendableSum(a, height) == SpendableSum(b, height)
    decreases |a|
  {
    assert |a| == |multiset(a)| == |multiset(b)| == |b|;
    if a != [] {
      hide Counted, Spendable, CountedSum, SpendableSum;
      var n := |a| - 1;
      assert a[n] in multiset(b) by { assert a[n] in multiset(a); }
      var i :| 0 <= i < |b| && b[i] == a[n];
      RemoveOne(a, n);
      RemoveOne(b, i);
      assert a[..n] + a[n + 1..] == a[..n];
      OrderIrrelevant(a[..n], b[..i] + b[i + 1..], height);
      SumsSplit(a, n, height);
      SumsSplit(b, i, height);
    }
  }

  lemma RemoveOne(s: seq<OutputData>, i: nat)
    requires i < |s|
    ensures multiset(s[..i] + s[i + 1..]) == multiset(s) - multiset{s[i]}
  {
    assert s == s[..i] + [s[i]] + s[i + 1..];
  }

  /** Locking a spendable output takes its value out of both balances. */
  lemma LockingLowersBoth(os: seq<OutputData>, i: nat, height: nat)
    requires i < |os| && os[i].status == Unspent && EligibleToSpend(os[i], height, 1)
    ensures var locked := os[i := os[i].(status := Locked)];
            && CountedSum(locked) == CountedSum(os) - os[i].value
            && SpendableSum(locked, height) == SpendableSum(os, height) - os[i].value
  {
    var locked := os[i := os[i].(status := Locked)];
    SumsSplit(os, i, height);
    SumsSplit(locked, i, height);
    assert locked[..i] + locked[i + 1..] == os[..i] + os[i + 1..];
  }

  /**
   What marking an output spent does to the balances: an unspent one takes its value out of the total,
   and out of the spendable balance if it was eligible; a locked one, or any other, changes neither.
   After locking, therefore, being spent moves no balance a second time.
   */
  lemma SpendingTakesOutOnce(os: seq<OutputData>, i: nat, height: nat)
    requires i < |os|
    ensures var (o, spent) := (os[i], os[i := SpentNow(os[i])]);
            && CountedSum(spent) == CountedSum(os) - (if o.status == Unspent then o.value else 0)
            && SpendableSum(spent, height) ==
                 SpendableSum(os, height)
                 - (if o.status == Unspent && EligibleToSpend(o, height, 1) then o.value else 0)
    ensures var locked := os[i := os[i].(status := Locked)];
            var spent := locked[i := SpentNow(locked[i])];
            && IsSpent(spent[i])
            && CountedSum(spent) == CountedSum(locked) && SpendableSum(spent, height) == SpendableSum(locked, height)
  {
    ReplaceOne(os, i, SpentNow(os[i]), height);
    var locked := os[i := os[i].(status := Locked)];
    ReplaceOne(locked, i, SpentNow(locked[i]), height);
  }

  /** Confirming an output leaves the total and never lowers the spendable balance. */
  lemma ConfirmingRaisesSpendable(os: seq<OutputData>, i: nat, height: nat)
    requires i < |os|
    ensures var confirmed := os[i := Confirmed(os[i])];
            && CountedSum(confirmed) == CountedSum(os)
            && SpendableSum(confirmed, height) >= SpendableSum(os, height)
  {
    ReplaceOne(os, i, Confirmed(os[i]), height);
  }

  lemma ReplaceOne(os: seq<OutputData>, i: nat, o: OutputData, height: nat)
    requires i < |os|
    ensures CountedSum(os[i := o]) - Counted(o) == CountedSum(os) - Counted(os[i])
    ensures SpendableSum(os[i := o], height) - Spendable(o, height)
            == SpendableSum(os, height) - Spendable(os[i], height)
  {
    hide Counted, Spendable;
    var replaced := os[i := o];
    SumsSplit(os, i, height);
    SumsSplit(replaced, i, height);
    assert replaced[..i] + replaced[i + 1..] == os[..i] + os[i + 1..];
  }

  // ----- spent flags -----

  predicate IsSpent(o: OutputData) {
    o.status == Spent || o.status == Deleted
  }

  /** Locked outputs are promised, not spent; deleted ones count as spent. */
  lemma SpentIff(o: OutputData)
    ensures IsSpent(o) <==> o.status !in {Unconfirmed, Unspent, Locked}
  {
  }

  predicate Touches(o: OutputData, tx: nat) {
    o.txLogEntry == Some(tx)
  }

  /**
   A transaction has a flag exactly when some output belongs to it, and the flag is set exactly when
   all of them are spent or deleted; the commitments returned are those of the spent outputs.
   */
  method SpentOutputsByTx(outputs: seq<OutputData>) returns (spentByTx: map<nat, bool>, spentCommits: set<string>)
    ensures forall tx :: tx in spentByTx <==> exists i | 0 <= i < |outputs| :: Touches(outputs[i], tx)
    ensures forall tx | tx in spentByTx ::
              spentByTx[tx] <==> forall i | 0 <= i < |outputs| && Touches(outputs[i], tx) :: IsSpent(outputs[i])
    ensures forall c :: c in spentCommits <==>
              exists i | 0 <= i < |outputs| :: IsSpent(outputs[i]) && outputs[i].commit == c
  {
    hide IsSpent;
    var states: map<nat, (bool, bool)> := map[];
    spentCommits := {};
    var i := 0;
    while i < |outputs|
      invariant 0 <= i <= |outputs|
      invariant forall tx :: tx in states <==> exists j | 0 <= j < i :: Touches(outputs[j], tx)
      invariant forall tx | tx in states :: states[tx].0 || states[tx].1
      invariant forall tx | tx in states ::
                  states[tx].1 <==> exists j | 0 <= j < i :: Touches(outputs[j], tx) && !IsSpent(outputs[j])
      invariant forall c :: c in spentCommits <==>
                  exists j | 0 <= j < i :: IsSpent(outputs[j]) && outputs[j].commit == c
    {
      var output := outputs[i];
      if IsSpent(output) {
        spentCommits := spentCommits + {output.commit};
      }
      if output.txLogEntry.Some? {
        var tx := output.txLogEntry.value;
        var state := if tx in states then states[tx] else (false, false);
        states := states[tx := if IsSpent(output) then (true, state.1) else (state.0, true)];
      }
      i := i + 1;
    }
    spentByTx := map tx | tx in states :: states[tx].0 && !states[tx].1;
  }
}
