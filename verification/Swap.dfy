/** Swap planning: slippage check, choice of the path and the guaranteed minimum, in exact arithmetic.
    Destination amounts are whole stroops (7 decimals), the tolerance is a percentage. */
module Swap {
  import opened Outcome

  datatype Error = InvalidInput | NoPath | ZeroAmount | SlippageExceeded

  /** The record chosen and the minimum demanded of the network. */
  datatype Plan = Plan(record: nat, destMin: int)

  function MaxOf(xs: seq<int>): int
    requires |xs| > 0
  {
    if |xs| == 1 then xs[0]
    else
      var m := MaxOf(xs[..|xs| - 1]);
      if xs[|xs| - 1] > m then xs[|xs| - 1] else m
  }

  function MinOf(xs: seq<int>): int
    requires |xs| > 0
  {
    if |xs| == 1 then xs[0]
    else
      var m := MinOf(xs[..|xs| - 1]);
      if xs[|xs| - 1] < m then xs[|xs| - 1] else m
  }

  /** The reduction keeps the current best unless a candidate is strictly better. */
  function PickBest(xs: seq<int>): (k: nat)
    requires |xs| > 0
    ensures k < |xs|
  {
    if |xs| == 1 then 0
    else
      var k := PickBest(xs[..|xs| - 1]);
      if xs[|xs| - 1] > xs[k] then |xs| - 1 else k
  }

  /** `toFixed(7)` in units of the last digit: to the nearest, ties upwards. */
  function RoundHalfUp(x: real): int {
    (x + 0.5).Floor
  }

  function DeviationPct(best: int, worst: int): real
    requires best > 0
  {
    (best - worst) as real / best as real * 100.0
  }

  /** The smallest amount the tolerance allows, before rounding. */
  function Threshold(best: int, pct: real): real {
    best as real * (1.0 - pct / 100.0)
  }

  function Execute(amounts: seq<int>, maxSlippagePct: real): Result<Plan, Error> {
    if !(0.0 <= maxSlippagePct <= 100.0) then Failure(InvalidInput)
    else if |amounts| == 0 then Failure(NoPath)
    else
      var best, worst := MaxOf(amounts), MinOf(amounts);
      if best <= 0 then Failure(ZeroAmount)
      else if DeviationPct(best, worst) > maxSlippagePct then Failure(SlippageExceeded)
      else Success(Plan(PickBest(amounts), RoundHalfUp(Threshold(best, maxSlippagePct))))
  }

  lemma {:induction false} Extremes(xs: seq<int>)
    requires |xs| > 0
    ensures MaxOf(xs) in xs && MinOf(xs) in xs
    ensures forall i | 0 <= i < |xs| :: MinOf(xs) <= xs[i] <= MaxOf(xs)
  {
    if |xs| > 1 {
      var front := xs[..|xs| - 1];
      Extremes(front);
      forall i | 0 <= i < |xs| ensures MinOf(xs) <= xs[i] <= MaxOf(xs) {
        if i < |xs| - 1 { assert xs[i] == front[i]; }
      }
    }
  }

  lemma {:induction false} PickIsFirstMaximum(xs: seq<int>)
    requires |xs| > 0
    ensures xs[PickBest(xs)] == MaxOf(xs)
    ensures forall i | 0 <= i < PickBest(xs) :: xs[i] < MaxOf(xs)
  {
    if |xs| > 1 {
      var front := xs[..|xs| - 1];
      PickIsFirstMaximum(front);
      Extremes(front);
      forall i | 0 <= i < PickBest(xs) ensures xs[i] < MaxOf(xs) {
        if i < |front| { assert xs[i] == front[i]; }
      }
    }
  }

  /** The deviation is tolerated exactly when the worst amount reaches the threshold. */
  lemma ToleratedExactly(best: int, worst: int, pct: real)
    requires best > 0
    ensures DeviationPct(best, worst) <= pct <==> worst as real >= Threshold(best, pct)
  {
  }

  /** A whole amount that reaches a threshold also reaches the threshold rounded to the nearest whole. */
  lemma WholeSurvivesRounding(a: int, x: real)
    requires a as real >= x
    ensures a >= RoundHalfUp(x)
    ensures x - 0.5 < RoundHalfUp(x) as real <= x + 0.5
  {
    var r := RoundHalfUp(x);
    assert r as real <= a as real + 0.5;
  }

  /** A plan exists exactly when every offered path reaches the threshold; it takes the first record with
      the largest amount, and its minimum, within half a stroop of the threshold, is met by every path. */
  lemma {:induction false} PlanByThreshold(amounts: seq<int>, pct: real)
    requires |amounts| > 0 && 0.0 <= pct <= 100.0 && MaxOf(amounts) > 0
    ensures var r, x := Execute(amounts, pct), Threshold(MaxOf(amounts), pct);
            && (r.Success? <==> forall i | 0 <= i < |amounts| :: amounts[i] as real >= x)
            && (r.Success? ==>
                  && r.value.record < |amounts|
                  && (forall i | 0 <= i < |amounts| :: amounts[i] <= amounts[r.value.record])
                  && (forall i | 0 <= i < r.value.record :: amounts[i] < amounts[r.value.record])
                  && (forall i | 0 <= i < |amounts| :: amounts[i] >= r.value.destMin)
                  && x - 0.5 < r.value.destMin as real <= x + 0.5)
  {
    var best, worst, x := MaxOf(amounts), MinOf(amounts), Threshold(MaxOf(amounts), pct);
    Extremes(amounts);
    PickIsFirstMaximum(amounts);
    ToleratedExactly(best, worst, pct);
    hide MaxOf, MinOf, PickBest, DeviationPct, Threshold, RoundHalfUp;
    if worst as real >= x {
      forall i | 0 <= i < |amounts| ensures amounts[i] as real >= x && amounts[i] >= RoundHalfUp(x) {
        assert amounts[i] >= worst;
        WholeSurvivesRounding(amounts[i], x);
      }
      WholeSurvivesRounding(worst, x);
    } else {
      var k :| 0 <= k < |amounts| && amounts[k] == worst;
      assert !(amounts[k] as real >= x);
    }
  }

  /** What the tolerance leaves of the best amount, in hundredths: no rounding, no division. */
  function Share(best: int, pct: real): real {
    best as real * (100.0 - pct)
  }

  predicate Reaches(amount: int, best: int, pct: real) {
    amount as real * 100.0 >= Share(best, pct)
  }

  lemma ReachesThreshold(amount: int, best: int, pct: real)
    ensures Reaches(amount, best, pct) <==> amount as real >= Threshold(best, pct)
    ensures Threshold(best, pct) * 100.0 == Share(best, pct)
  {
    var b := best as real;
    assert b * (1.0 - pct / 100.0) == b - b * pct / 100.0;
    assert b * (100.0 - pct) == b * 100.0 - b * pct;
  }

  lemma ReachesLess(amount: int, less: int, best: int, pct: real)
    requires Reaches(amount, best, pct) && less <= best && pct <= 100.0
    ensures Reaches(amount, less, pct)
  {
    assert less as real * (100.0 - pct) <= best as real * (100.0 - pct) by { ScaledUp(less, best, 100.0 - pct); }
  }

  lemma ScaledUp(a: int, b: int, factor: real)
    requires a <= b && factor >= 0.0
    ensures a as real * factor <= b as real * factor
  {
  }

  /** A plan exists exactly when every offered path reaches what the tolerance leaves of the best; it takes the first
      record with the largest amount, and its minimum, within half a stroop of that, is met by every path. */
  lemma {:induction false} SwapBound(amounts: seq<int>, pct: real)
    requires |amounts| > 0 && 0.0 <= pct <= 100.0 && MaxOf(amounts) > 0
    ensures var r, best := Execute(amounts, pct), MaxOf(amounts);
            && (r.Success? <==> forall i | 0 <= i < |amounts| :: Reaches(amounts[i], best, pct))
            && (r.Success? ==>
                  && r.value.record < |amounts|
                  && (forall i | 0 <= i < |amounts| :: amounts[i] <= amounts[r.value.record])
                  && (forall i | 0 <= i < r.value.record :: amounts[i] < amounts[r.value.record])
                  && (forall i | 0 <= i < |amounts| :: amounts[i] >= r.value.destMin)
                  && Share(best, pct) - 50.0 < r.value.destMin as real * 100.0 <= Share(best, pct) + 50.0)
  {
    PlanByThreshold(amounts, pct);
    hide MaxOf, Reaches, Execute, Threshold, Share;
    forall i | 0 <= i < |amounts|
      ensures amounts[i] as real >= Threshold(MaxOf(amounts), pct) <==> Reaches(amounts[i], MaxOf(amounts), pct)
    {
      ReachesThreshold(amounts[i], MaxOf(amounts), pct);
    }
    ReachesThreshold(0, MaxOf(amounts), pct);
  }

  /** Some path yields so much less than another that it is out of the tolerance. */
  ghost predicate FallsShort(amounts: seq<int>, pct: real) {
    exists i, j :: 0 <= i < |amounts| && 0 <= j < |amounts| && !Reaches(amounts[i], amounts[j], pct)
  }

  /** When no plan is made, and why: the tolerance is no percentage, no path is offered, no path yields anything, or
      some path falls short of another by more than the tolerance. */
  lemma {:induction false} RefusedExactly(amounts: seq<int>, pct: real)
    ensures var r := Execute(amounts, pct);
            var valid := 0.0 <= pct <= 100.0;
            var positive := exists i :: 0 <= i < |amounts| && amounts[i] > 0;
            && (r == Failure(InvalidInput) <==> !valid)
            && (r == Failure(NoPath) <==> valid && amounts == [])
            && (r == Failure(ZeroAmount) <==> valid && amounts != [] && !positive)
            && (r == Failure(SlippageExceeded) <==> valid && positive && FallsShort(amounts, pct))
  {
    hide Threshold, RoundHalfUp, DeviationPct, Reaches, FallsShort, PickBest, MaxOf, MinOf;
    if 0.0 <= pct <= 100.0 && amounts != [] {
      Extremes(amounts);
      var best :| 0 <= best < |amounts| && amounts[best] == MaxOf(amounts);
      if MaxOf(amounts) > 0 {
        SwapBound(amounts, pct);
        FallsShortOfBest(amounts, best, pct);
      }
    }
  }

  lemma FallsShortOfBest(amounts: seq<int>, best: nat, pct: real)
    requires best < |amounts| && pct <= 100.0 && forall j | 0 <= j < |amounts| :: amounts[j] <= amounts[best]
    ensures FallsShort(amounts, pct) <==> !forall i | 0 <= i < |amounts| :: Reaches(amounts[i], amounts[best], pct)
  {
    hide Reaches;
    if FallsShort(amounts, pct) {
      var i, j :| 0 <= i < |amounts| && 0 <= j < |amounts| && !Reaches(amounts[i], amounts[j], pct);
      if Reaches(amounts[i], amounts[best], pct) { ReachesLess(amounts[i], amounts[j], amounts[best], pct); }
    }
  }
}
