/** The production countdown of an outpost: while the outpost is not
    packing, every tick brings the next delivery of goods closer. */
module Production {
  import opened Common

  /** How long a production cycle takes when the configuration does not say. */
  const DefaultTicksPerProduction: int := 15 * 60000

  /** The configured production period, or the default without a configuration. */
  function TicksPerProduction(configured: Option<int>): (r: int)
    ensures configured.None? ==> r == 900000
    ensures configured.Some? ==> r == configured.value
  {
    configured.GetOr(DefaultTicksPerProduction)
  }

  /** The tick condition with the host language's operator precedence: the
      negated packing flag, coalesced with `false && period > 0`. The
      coalescing operator binds looser than `&&`, so the period never
      matters: the countdown runs exactly when the packing tracker exists
      and is not packing. */
  function ProductionGate(packing: Option<bool>, ticksPerProduction: int): (r: bool)
    ensures r <==> packing == Some(false)
  {
    var negated: Option<bool> := if packing.Some? then Some(!packing.value) else None;
    if negated.Some? then negated.value else false && ticksPerProduction > 0
  }

  /** One production tick on a counter: the new counter and whether the
      outpost produces on this tick. */
  function ProductionStep(t: int, gate: bool, period: int): (r: (int, bool))
    ensures !gate ==> r == (t, false)
    ensures gate && t - 1 > 0 ==> r == (t - 1, false)
    ensures gate && t - 1 <= 0 ==> r == (period, true)
  {
    if !gate then (t, false)
    else if t - 1 <= 0 then (period, true)
    else (t - 1, false)
  }

  /** Runs n non-packing ticks: the final counter and how many times the
      outpost produced. */
  function RunProduction(t: int, n: nat, period: int): (int, nat)
    decreases n
  {
    if n == 0 then (t, 0)
    else
      var step := ProductionStep(t, true, period);
      var rest := RunProduction(step.0, n - 1, period);
      (rest.0, rest.1 + (if step.1 then 1 else 0))
  }

  lemma {:induction false} RunProductionCompose(t: int, a: nat, b: nat, period: int)
    ensures RunProduction(t, a + b, period)
         == (RunProduction(RunProduction(t, a, period).0, b, period).0,
             RunProduction(t, a, period).1 + RunProduction(RunProduction(t, a, period).0, b, period).1)
    decreases a
  {
    if a > 0 {
      var step := ProductionStep(t, true, period);
      RunProductionCompose(step.0, a - 1, b, period);
      assert a + b - 1 == (a - 1) + b;
    }
  }

  lemma {:induction false} RunProductionCountsDown(t: int, n: nat, period: int)
    requires n < t
    ensures RunProduction(t, n, period) == (t - n, 0)
    decreases n
  {
    if n > 0 {
      RunProductionCountsDown(t - 1, n - 1, period);
    }
  }

  /** A countdown just reset to a positive period produces exactly once per
      period: after k periods of ticks it has produced k times and stands
      at the period again. */
  lemma {:induction false} ProductionCycles(period: int, k: nat)
    requires period >= 1
    ensures RunProduction(period, k * period, period) == (period, k)
  {
    if k > 0 {
      RunProductionCountsDown(period, period - 1, period);
      assert RunProduction(1, 1, period) == (period, 1);
      RunProductionCompose(period, period - 1, 1, period);
      assert RunProduction(period, period, period) == (period, 1);
      ProductionCycles(period, k - 1);
      assert k * period == period + (k - 1) * period;
      RunProductionCompose(period, period, (k - 1) * period, period);
    }
  }

  /** With a scaled period of at most one tick, the outpost produces on
      every non-packing tick. */
  lemma {:induction false} ProductionEveryTick(t: int, n: nat, period: int)
    requires t <= 1 && period <= 1
    ensures RunProduction(t, n, period).1 == n
    decreases n
  {
    if n > 0 {
      ProductionEveryTick(period, n - 1, period);
    }
  }

  class ProductionTracker {
    /** Ticks left until the next production. */
    var ticksTillProduction: int

    constructor()
      ensures ticksTillProduction == 0
    {
      ticksTillProduction := 0;
    }

    /** When the outpost is founded the countdown starts at the scaled
        period. */
    method PostAdd(ticksPerProduction: int, timeMultiplier: real)
      modifies this
      ensures ticksTillProduction == Scale(ticksPerProduction, timeMultiplier)
    {
      ticksTillProduction := Scale(ticksPerProduction, timeMultiplier);
    }

    /** One tick, given the packing state (None when the outpost has no
        packing tracker); the result says whether the outpost produces now,
        in which case the countdown has restarted at the scaled period. */
    method Tick(packing: Option<bool>, ticksPerProduction: int, timeMultiplier: real) returns (produce: bool)
      modifies this
      ensures (ticksTillProduction, produce)
           == ProductionStep(old(ticksTillProduction), packing == Some(false),
                             Scale(ticksPerProduction, timeMultiplier))
    {
      produce := false;
      if ProductionGate(packing, ticksPerProduction) {
        ticksTillProduction := ticksTillProduction - 1;
        if ticksTillProduction <= 0 {
          ticksTillProduction := Scale(ticksPerProduction, timeMultiplier);
          produce := true;
        }
      }
    }

    /** The developer shortcut: production in ten ticks. */
    method ProduceNow()
      modifies this
      ensures ticksTillProduction == 10
    {
      ticksTillProduction := 10;
    }
  }
}
