/** Finding the largest amount that can be sent: amount plus the fee of sending it is all there is. */
module MaxSend {
  import opened Common

  type u64 = n: nat | n <= U64_MAX

  /** What the wallet answers when asked for the fee of sending an amount. */
  datatype Estimate =
    | Fee(fee: u64)
    | NotEnoughFunds(available: u64, needed: u64)
    | OtherError

  datatype Result =
    | Sendable(amount: u64, fee: u64)
    | Insufficient(fee: u64)
    | FeeOverflow
    | EstimateError
    | NotConverged

  /** The wallet may answer differently in each round. */
  type Oracle = (nat, u64) -> Estimate

  const ROUNDS := 8

  datatype Verdict = Stop(result: Result) | Again(fee: u64)

  /** What a round does with the fee it is given. */
  function Round(oracle: Oracle, spendable: u64, fee: u64, k: nat): Verdict {
    if spendable <= fee then Stop(Insufficient(fee)) else
      match oracle(k, spendable - fee)
      case Fee(f) => if f == fee then Stop(Sendable(spendable - fee, f)) else Again(f)
      case NotEnoughFunds(available, needed) =>
        if needed <= available then Stop(EstimateError)
        else if fee + (needed - available) > U64_MAX then Stop(FeeOverflow)
        else Again(fee + (needed - available))
      case OtherError => Stop(EstimateError)
  }

  /** The rounds from round k on. */
  function Search(oracle: Oracle, spendable: u64, fee: u64, k: nat): Result
    requires k <= ROUNDS
    decreases ROUNDS - k
  {
    if k == ROUNDS then NotConverged else
      match Round(oracle, spendable, fee, k)
      case Stop(r) => r
      case Again(f) => Search(oracle, spendable, f, k + 1)
  }

  /** The loop of the wallet; no subtraction in it can go below zero. */
  method EstimateMaxSend(oracle: Oracle, spendable: u64, initialFee: u64) returns (r: Result)
    ensures r == Search(oracle, spendable, initialFee, 0)
  {
    hide Search;
    var fee: u64 := initialFee;
    for k := 0 to ROUNDS
      invariant Search(oracle, spendable, initialFee, 0) == Search(oracle, spendable, fee, k)
    {
      SearchStep(oracle, spendable, fee, k);
      if spendable <= fee {
        return Insufficient(fee);
      }
      var candidate: u64 := spendable - fee;
      match oracle(k, candidate) {
        case Fee(f) =>
          if f == fee {
            return Sendable(candidate, f);
          }
          fee := f;
        case NotEnoughFunds(available, needed) =>
          if needed <= available {
            return EstimateError;
          }
          var deficit := needed - available;
          if fee + deficit > U64_MAX {
            return FeeOverflow;
          }
          fee := fee + deficit;
        case OtherError =>
          return EstimateError;
      }
    }
    LastRound(oracle, spendable, fee);
    r := NotConverged;
  }

  lemma SearchStep(oracle: Oracle, spendable: u64, fee: u64, k: nat)
    requires k < ROUNDS
    ensures var v := Round(oracle, spendable, fee, k);
            Search(oracle, spendable, fee, k) ==
            if v.Stop? then v.result else Search(oracle, spendable, v.fee, k + 1)
  {
    hide Round;
  }

  lemma LastRound(oracle: Oracle, spendable: u64, fee: u64)
    ensures Search(oracle, spendable, fee, ROUNDS) == NotConverged
  {
  }

  // ----- what the search finds -----

  /** The fee tried in round k, if the search gets that far. */
  function FeeAt(oracle: Oracle, spendable: u64, initialFee: u64, k: nat): (fee: u64)
  {
    if k == 0 then initialFee else
      var fee := FeeAt(oracle, spendable, initialFee, k - 1);
      var v := Round(oracle, spendable, fee, k - 1);
      if v.Again? then v.fee else fee
  }

  /** The rounds before round k all ask for another. */
  predicate Gets(oracle: Oracle, spendable: u64, initialFee: u64, k: nat) {
    forall j | 0 <= j < k :: Round(oracle, spendable, FeeAt(oracle, spendable, initialFee, j), j).Again?
  }

  lemma {:induction false} SearchReaches(oracle: Oracle, spendable: u64, initialFee: u64, k: nat)
    requires k <= ROUNDS && Gets(oracle, spendable, initialFee, k)
    ensures Search(oracle, spendable, initialFee, 0)
            == Search(oracle, spendable, FeeAt(oracle, spendable, initialFee, k), k)
  {
    hide Round;
    if k > 0 {
      SearchReaches(oracle, spendable, initialFee, k - 1);
      assert Round(oracle, spendable, FeeAt(oracle, spendable, initialFee, k - 1), k - 1).Again?;
    }
  }

  /** The first round that does not ask for another, if there is one among the first n. */
  lemma {:induction false} FirstStop(oracle: Oracle, spendable: u64, initialFee: u64, n: nat) returns (k: nat)
    ensures k <= n && Gets(oracle, spendable, initialFee, k)
    ensures k < n ==> Round(oracle, spendable, FeeAt(oracle, spendable, initialFee, k), k).Stop?
  {
    hide Round, FeeAt;
    k := 0;
    if n > 0 {
      k := FirstStop(oracle, spendable, initialFee, n - 1);
      if k == n - 1 && Round(oracle, spendable, FeeAt(oracle, spendable, initialFee, k), k).Again? {
        k := n;
      }
    }
  }

  /** A round ends the search with this amount and fee in exactly this case. */
  lemma RoundSettles(oracle: Oracle, spendable: u64, fee: u64, k: nat, amount: u64, f: u64)
    ensures Round(oracle, spendable, fee, k) == Stop(Sendable(amount, f)) <==>
            fee == f && amount > 0 && amount + f == spendable && oracle(k, amount) == Fee(f)
  {
  }

  /**
   Exactly when the search succeeds, and with what: some round within the eight is reached in which the
   wallet's answer for the candidate is the fee the candidate was made with. The amount then is
   positive, and amount and fee exhaust the spendable balance.
   */
  lemma SucceedsIff(oracle: Oracle, spendable: u64, initialFee: u64, amount: u64, fee: u64)
    ensures Search(oracle, spendable, initialFee, 0) == Sendable(amount, fee) <==>
            amount > 0 && amount + fee == spendable
            && exists k | 0 <= k < ROUNDS :: Gets(oracle, spendable, initialFee, k)
                 && fee == FeeAt(oracle, spendable, initialFee, k) && oracle(k, amount) == Fee(fee)
  {
    hide Round, FeeAt, Gets, Search;
    var n := FirstStop(oracle, spendable, initialFee, ROUNDS);
    SearchReaches(oracle, spendable, initialFee, n);
    SearchStops(oracle, spendable, initialFee, n);
    if n < ROUNDS {
      RoundSettles(oracle, spendable, FeeAt(oracle, spendable, initialFee, n), n, amount, fee);
    }
    forall k | 0 <= k < ROUNDS && Gets(oracle, spendable, initialFee, k)
        && fee == FeeAt(oracle, spendable, initialFee, k) && oracle(k, amount) == Fee(fee)
        && amount > 0 && amount + fee == spendable
      ensures Search(oracle, spendable, initialFee, 0) == Sendable(amount, fee)
    {
      SearchReaches(oracle, spendable, initialFee, k);
      RoundSettles(oracle, spendable, fee, k, amount, fee);
      SearchStops(oracle, spendable, initialFee, k);
    }
  }

  lemma SearchStops(oracle: Oracle, spendable: u64, initialFee: u64, k: nat)
    requires k <= ROUNDS
    ensures var fee := FeeAt(oracle, spendable, initialFee, k);
            && (k == ROUNDS ==> Search(oracle, spendable, fee, k) == NotConverged)
            && (k < ROUNDS && Round(oracle, spendable, fee, k).Stop? ==>
                  Search(oracle, spendable, fee, k) == Round(oracle, spendable, fee, k).result)
  {
    hide Round, FeeAt;
  }

  /**
   Eight rounds are made: a search whose first seven rounds ask for another still succeeds in the eighth, and
   if that one asks for another too, it gives up.
   */
  lemma EighthRound(oracle: Oracle, spendable: u64, initialFee: u64)
    requires Gets(oracle, spendable, initialFee, 7)
    ensures var fee := FeeAt(oracle, spendable, initialFee, 7);
            && (fee < spendable && oracle(7, spendable - fee) == Fee(fee) ==>
                  Search(oracle, spendable, initialFee, 0) == Sendable(spendable - fee, fee))
            && (Gets(oracle, spendable, initialFee, 8) <==> Search(oracle, spendable, initialFee, 0) == NotConverged)
  {
    SearchReaches(oracle, spendable, initialFee, 7);
    var fee := FeeAt(oracle, spendable, initialFee, 7);
    SearchStep(oracle, spendable, fee, 7);
    hide FeeAt, Search;
    if fee < spendable && oracle(7, spendable - fee) == Fee(fee) {
      RoundSettles(oracle, spendable, fee, 7, spendable - fee, fee);
    }
    hide Round;
    if Round(oracle, spendable, fee, 7).Again? {
      LastRound(oracle, spendable, Round(oracle, spendable, fee, 7).fee);
    } else {
      NoSuchStop(oracle, spendable, fee, 7);
    }
  }

  lemma NoSuchStop(oracle: Oracle, spendable: u64, fee: u64, k: nat)
    ensures Round(oracle, spendable, fee, k) != Stop(NotConverged)
  {
  }

  /**
   Exactly when the search fails, and how, in the round it ends in: the fee leaves nothing to send, the fee and
   a deficit overflow, or the answer is an error or a deficit that is none.
   */
  lemma RoundFails(oracle: Oracle, spendable: u64, fee: u64, k: nat)
    ensures var v := Round(oracle, spendable, fee, k);
            && (v == Stop(Insufficient(fee)) <==> spendable <= fee)
            && (spendable > fee ==>
                  match oracle(k, spendable - fee)
                  case OtherError => v == Stop(EstimateError)
                  case Fee(f) => f != fee ==> v == Again(f)
                  case NotEnoughFunds(available, needed) =>
                    && (v == Stop(EstimateError) <==> needed <= available)
                    && (v == Stop(FeeOverflow) <==> fee + needed > available + U64_MAX && needed > available)
                    && (v.Again? ==> v.fee == fee + needed - available))
  {
  }

  /** With a steady fee that leaves something to send, two rounds are enough. */
  lemma SteadyFeeSucceeds(oracle: Oracle, spendable: u64, initialFee: u64, fee: u64)
    requires fee < spendable && initialFee < spendable
    requires oracle(0, spendable - initialFee) == Fee(fee) && oracle(1, spendable - fee) == Fee(fee)
    ensures Search(oracle, spendable, initialFee, 0) == Sendable(spendable - fee, fee)
  {
    assert Search(oracle, spendable, fee, 1) == Sendable(spendable - fee, fee);
  }

  /**
   A deficit is folded in exactly: if the first candidate falls short by some deficit and the wallet's
   fee is that much more, the second round settles.
   */
  lemma DeficitSettles(oracle: Oracle, spendable: u64, initialFee: u64, deficit: u64, available: u64)
    requires deficit > 0 && available + deficit <= U64_MAX && initialFee + deficit < spendable
    requires oracle(0, spendable - initialFee) == NotEnoughFunds(available, available + deficit)
    requires oracle(1, spendable - (initialFee + deficit)) == Fee(initialFee + deficit)
    ensures Search(oracle, spendable, initialFee, 0)
            == Sendable(spendable - (initialFee + deficit), initialFee + deficit)
  {
    var fee: u64 := initialFee + deficit;
    assert Round(oracle, spendable, initialFee, 0) == Again(fee);
    assert Round(oracle, spendable, fee, 1) == Stop(Sendable(spendable - fee, fee));
    hide Round;
    assert Search(oracle, spendable, fee, 1) == Sendable(spendable - fee, fee);
  }
}
