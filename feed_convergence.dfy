/**
 * The scroll-until-stable loop of `load_depop_products` (download_from_depop.py).
 *
 * The browser is abstracted away: `anchorAppeared` says whether a product
 * anchor showed up before the initial wait timed out, and `sample(i)` is the
 * number of product anchors counted after the i-th scroll (0-based round).
 */
module FeedConvergence {

  /** `max_attempts`: consecutive unchanged samples that end the loop. */
  const MaxAttempts: nat := 3

  /** What the loader hands back: the empty snapshot "" when no product anchor
      ever appeared, or the page snapshot taken after `scrolls` scroll rounds. */
  datatype LoadOutcome = NoProducts | Settled(scrolls: nat)

  /** The value of `prev_count` when round `i` is compared: 0 before the first round,
      afterwards the count sampled in the round before. */
  function Prev(sample: nat -> nat, i: nat): nat {
    if i == 0 then 0 else sample(i - 1)
  }

  /** Round `i` sampled the same count as the one before it. */
  predicate Stalled(sample: nat -> nat, i: nat) {
    sample(i) == Prev(sample, i)
  }

  /** The stall counter `attempts` after round `i` (had the loop not stopped earlier). */
  function Attempts(sample: nat -> nat, i: nat): (r: nat)
    ensures r == 0 <==> sample(i) != Prev(sample, i)
    ensures r <= i + 1
  {
    if !Stalled(sample, i) then 0
    else if i == 0 then 1
    else Attempts(sample, i - 1) + 1
  }

  /** Round `e` is the one that ends the loop: the counter reaches the threshold
      there and at no earlier round. */
  predicate IsExitRound(sample: nat -> nat, e: nat) {
    && Attempts(sample, e) >= MaxAttempts
    && forall j :: 0 <= j < e ==> Attempts(sample, j) < MaxAttempts
  }

  /** The counter is the length of the run of stalled rounds ending at round `i`:
      it is at least `m` exactly when the last `m` rounds up to `i` all stalled. */
  lemma {:induction false} AttemptsIsStallRun(sample: nat -> nat, i: nat, m: nat)
    ensures Attempts(sample, i) >= m <==> m <= i + 1 && forall j :: i + 1 - m <= j <= i ==> Stalled(sample, j)
    decreases i
  {
    if m == 0 {
    } else if !Stalled(sample, i) {
    } else if i == 0 {
    } else {
      AttemptsIsStallRun(sample, i - 1, m - 1);
      if m <= i + 1 && forall j :: i + 1 - m <= j <= i ==> Stalled(sample, j) {
        assert forall j :: i - (m - 1) <= j <= i - 1 ==> Stalled(sample, j);
      }
    }
  }

  /** Once the counts are constant from round `k` on, every later round stalls,
      so the counter has grown by at least one per round since `k`. */
  lemma {:induction false} AttemptsGrowAfterStable(sample: nat -> nat, k: nat, i: nat)
    requires forall n :: k <= n ==> sample(n) == sample(k)
    requires k < i
    ensures Attempts(sample, i) >= i - k
    decreases i
  {
    assert sample(i) == sample(k) == sample(i - 1);
    if i - 1 > k {
      AttemptsGrowAfterStable(sample, k, i - 1);
    }
  }

  /** If the count changes at round `k` and stays the same from then on, and the
      loop has not stopped before `k`, the loop stops exactly at round k + 3. */
  lemma {:induction false} SettlesThreeRoundsAfterLastChange(sample: nat -> nat, k: nat)
    requires forall n :: k <= n ==> sample(n) == sample(k)
    requires sample(k) != Prev(sample, k)
    requires forall j :: 0 <= j < k ==> Attempts(sample, j) < MaxAttempts
    ensures IsExitRound(sample, k + 3)
  {
  }

  /** At most one round ends the loop. */
  lemma ExitRoundIsUnique(sample: nat -> nat, e1: nat, e2: nat)
    requires IsExitRound(sample, e1) && IsExitRound(sample, e2)
    ensures e1 == e2
  {
  }

  /** Counts that stay the same from round `k` on end the loop by round k + 3, and
      exactly at k + 3 when the count changed at `k` and the loop was still running then. */
  lemma {:induction false} StableFeedExitsBy(sample: nat -> nat, k: nat, e: nat)
    requires forall n :: k <= n ==> sample(n) == sample(k)
    requires IsExitRound(sample, e)
    ensures e <= k + 3
    ensures sample(k) != Prev(sample, k) && k <= e ==> e == k + 3
  {
    AttemptsGrowAfterStable(sample, k, k + 3);
    if sample(k) != Prev(sample, k) && k <= e {
      SettlesThreeRoundsAfterLastChange(sample, k);
      ExitRoundIsUnique(sample, e, k + 3);
    }
  }

  /**
   * `load_depop_products`: wait for a product anchor, then scroll, sample the
   * anchor count, and stop after MaxAttempts consecutive samples equal to their
   * predecessor. Some round `e` must bring the counter to the threshold;
   * otherwise the source's `while True` never ends.
   */
  method LoadProducts(anchorAppeared: bool, sample: nat -> nat, ghost e: nat) returns (outcome: LoadOutcome)
    requires anchorAppeared ==> Attempts(sample, e) >= MaxAttempts
    ensures outcome == NoProducts <==> !anchorAppeared
    ensures outcome.Settled? ==> 1 <= outcome.scrolls <= e + 1 && IsExitRound(sample, outcome.scrolls - 1)
    ensures outcome.Settled? ==>
              && outcome.scrolls >= MaxAttempts
              && forall j :: outcome.scrolls - MaxAttempts <= j < outcome.scrolls ==> Stalled(sample, j)
  {
    if !anchorAppeared {
      return NoProducts;
    }
    var prevCount := 0;
    var attempts := 0;
    var round := 0;
    while true
      invariant round <= e
      invariant prevCount == Prev(sample, round)
      invariant attempts == if round == 0 then 0 else Attempts(sample, round - 1)
      invariant forall j :: 0 <= j < round ==> Attempts(sample, j) < MaxAttempts
      decreases e - round
    {
      var currCount := sample(round);
      if currCount == prevCount {
        attempts := attempts + 1;
      } else {
        attempts := 0;
      }
      if attempts >= MaxAttempts {
        break;
      }
      prevCount := currCount;
      round := round + 1;
    }
    AttemptsIsStallRun(sample, round, MaxAttempts);
    outcome := Settled(round + 1);
  }

  /** A feed whose counts stay the same from round `k` on meets the loader's
      requirement, with round k + 3 as the witness. */
  lemma StableFeedLoads(sample: nat -> nat, k: nat)
    requires forall n :: k <= n ==> sample(n) == sample(k)
    ensures Attempts(sample, k + 3) >= MaxAttempts
  {
  }
}
