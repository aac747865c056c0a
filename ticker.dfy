// The fixed-step ticker: a module that accumulates frame time and runs its
// ticker pipeline once per whole interval, counting the runs in the
// ticker component's TickId. Time is measured in exact reals here.

module Ticker {
  import DefaultGameLoop

  /**
   * The ticker's own comparator: the same rule as the default game loop's,
   * lower priority first and ties broken by the entity comparator.
   */
  function TickerPriorityCompare(a: DefaultGameLoop.Prioritised, b: DefaultGameLoop.Prioritised): (r: int)
    requires DefaultGameLoop.ValidSystem(a) && DefaultGameLoop.ValidSystem(b)
    ensures r == DefaultGameLoop.PriorityCompare(a, b)
  {
    if a.priority == b.priority then
      (if a.entity > b.entity then 1 else 0) - (if a.entity < b.entity then 1 else 0)
    else if a.priority >= b.priority then 1 else -1
  }

  /** The number of whole intervals in `total`, as the pipeline-run loop counts them. */
  function RunCount(total: real, interval: real): (n: nat)
    requires interval > 0.0
  {
    if total < interval then 0 else (total / interval).Floor
  }

  function Repeat(x: real, n: nat): (r: seq<real>)
    ensures |r| == n && forall i :: 0 <= i < n ==> r[i] == x
  {
    if n == 0 then [] else Repeat(x, n - 1) + [x]
  }

  class TickerModule {
    var tickerRate: int
    var interval: real
    var accumulator: real
    /** `TickId` of the ticker singleton component. */
    var tickId: int
    /** The deltas the ticker pipeline was run with, oldest first. */
    var runs: seq<real>

    constructor()
      ensures tickerRate == 60 && interval == 0.0 && accumulator == 0.0 && tickId == 0 && runs == []
    {
      tickerRate := 60;
      interval := 0.0;
      accumulator := 0.0;
      tickId := 0;
      runs := [];
    }

    /** The interval set up when the module initialises: one over the rate. */
    method InitializeInterval()
      requires tickerRate > 0
      modifies this
      ensures tickerRate == old(tickerRate) && accumulator == old(accumulator)
      ensures tickId == old(tickId) && runs == old(runs)
      ensures interval == 1.0 / tickerRate as real && interval > 0.0
    {
      interval := 1.0 / tickerRate as real;
    }

    /**
     * `ProgressModule(dt)`: add dt, then run the pipeline once per whole
     * interval, each run consuming one interval and raising TickId by one.
     */
    method ProgressModule(dt: real)
      requires interval > 0.0
      modifies this
      ensures interval == old(interval) && tickerRate == old(tickerRate)
      ensures tickId == old(tickId) + RunCount(old(accumulator) + dt, interval)
      ensures runs == old(runs) + Repeat(interval, RunCount(old(accumulator) + dt, interval))
      ensures accumulator == old(accumulator) + dt - RunCount(old(accumulator) + dt, interval) as real * interval
      ensures accumulator < interval
      ensures old(accumulator) + dt >= 0.0 ==> accumulator >= 0.0
    {
      accumulator := accumulator + dt;
      ghost var total := accumulator;
      ghost var n: nat := 0;
      while accumulator >= interval
        invariant interval == old(interval) && tickerRate == old(tickerRate)
        invariant accumulator == total - Taken(n, interval)
        invariant tickId == old(tickId) + n && runs == old(runs) + Repeat(interval, n)
        invariant n > 0 ==> accumulator >= 0.0
        invariant n <= RunCount(total, interval)
        decreases RunCount(total, interval) - n
      {
        RunsRemain(total, interval, n);
        accumulator := accumulator - interval;
        tickId := tickId + 1;
        runs := runs + [interval];
        n := n + 1;
      }
      RunsDone(total, interval, n);
      TakenIsProduct(n, interval);
    }
  }

  /** n intervals, added one at a time. */
  function Taken(n: nat, interval: real): real
  {
    if n == 0 then 0.0 else Taken(n - 1, interval) + interval
  }

  lemma {:induction false} TakenIsProduct(n: nat, interval: real)
    ensures Taken(n, interval) == n as real * interval
  {
    if n > 0 {
      TakenIsProduct(n - 1, interval);
      assert (n - 1) as real * interval + interval == n as real * interval;
    }
  }

  lemma {:induction false} TakenNonNegative(n: nat, interval: real)
    requires interval > 0.0
    ensures Taken(n, interval) >= 0.0
    ensures n > 0 ==> Taken(n, interval) >= interval
  {
    if n > 0 {
      TakenNonNegative(n - 1, interval);
    }
  }

  lemma MulLtCancel(a: real, b: real, c: real)
    requires c > 0.0 && a * c < b * c
    ensures a < b
  {
    assert (b - a) * c > 0.0;
  }

  lemma MulLeCancel(a: real, b: real, c: real)
    requires c > 0.0 && a * c <= b * c
    ensures a <= b
  {
    assert (b - a) * c >= 0.0;
  }

  lemma AddOne(k: real, c: real)
    ensures (k + 1.0) * c == k * c + c
  {
  }

  /** If total lies within one c above k multiples of c, then k <= total / c < k + 1. */
  lemma Between(total: real, c: real, k: real, q: real)
    requires c > 0.0 && q * c == total && k * c <= total && total - k * c < c
    ensures k <= q < k + 1.0
  {
    MulLeCancel(k, q, c);
    AddOne(k, c);
    MulLtCancel(q, k + 1.0, c);
  }

  /** While a whole interval is left after n runs, fewer than the count have been made. */
  lemma RunsRemain(total: real, interval: real, n: nat)
    requires interval > 0.0 && total - Taken(n, interval) >= interval
    ensures n + 1 <= RunCount(total, interval)
  {
    var m := n + 1;
    assert Taken(m, interval) <= total;
    TakenNonNegative(m, interval);
    TakenIsProduct(m, interval);
    DivMul(total, interval);
    AtMost(total, interval, m as real, total / interval);
  }

  /** If k multiples of c fit into total, then k <= total / c. */
  lemma AtMost(total: real, c: real, k: real, q: real)
    requires c > 0.0 && q * c == total && k * c <= total
    ensures k <= q
  {
    MulLeCancel(k, q, c);
  }

  lemma DivMul(x: real, c: real)
    requires c > 0.0
    ensures (x / c) * c == x
  {
  }

  /** Once less than one interval is left, exactly the count has been made. */
  lemma RunsDone(total: real, interval: real, n: nat)
    requires interval > 0.0 && total - Taken(n, interval) < interval
    requires n > 0 ==> total - Taken(n, interval) >= 0.0
    ensures n == RunCount(total, interval)
  {
    if n > 0 {
      TakenNonNegative(n, interval);
      TakenIsProduct(n, interval);
      DivMul(total, interval);
      Between(total, interval, n as real, total / interval);
    }
  }
}
