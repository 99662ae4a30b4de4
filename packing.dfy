/** The packing countdown of an outpost: while it runs, every tick brings
    the outpost closer to turning back into a caravan. */
module Packing {
  import opened Common

  /** How long packing takes when the configuration does not say. */
  const DefaultTicksToPack: int := 7 * 60000

  /** The packing time, shared among the occupants: the configured time
      (or the default) divided, truncating, by the number of occupants. */
  function TicksToPack(configured: Option<int>, occupantCount: int): (r: int)
    requires occupantCount != 0
    ensures var total := configured.GetOr(DefaultTicksToPack);
      total >= 0 && occupantCount > 0 ==> r * occupantCount <= total < (r + 1) * occupantCount
  {
    TruncDiv(configured.GetOr(DefaultTicksToPack), occupantCount)
  }

  /** More occupants never make packing slower. */
  lemma TicksToPackNonIncreasing(configured: Option<int>, m: int, n: int)
    requires 0 < m <= n && configured.GetOr(DefaultTicksToPack) >= 0
    ensures TicksToPack(configured, n) <= TicksToPack(configured, m)
  {
    var total := configured.GetOr(DefaultTicksToPack);
    assert TicksToPack(configured, n) == total / n && TicksToPack(configured, m) == total / m;
    var b := total / n;
    DivMulBound(total, n);
    MulMonotone(b, m, n);
    DivLowerBound(total, m, b);
  }

  lemma DivMulBound(total: int, n: int)
    requires total >= 0 && n > 0
    ensures total / n >= 0 && (total / n) * n <= total
  {
    assert total == (total / n) * n + total % n;
  }

  lemma MulMonotone(b: int, m: int, n: int)
    requires b >= 0 && m <= n
    ensures b * m <= b * n
  {
    assert b * n - b * m == b * (n - m);
  }

  lemma DivLowerBound(total: int, m: int, b: int)
    requires m > 0 && total >= 0 && b * m <= total
    ensures b <= total / m
  {
    var q, r := total / m, total % m;
    assert total == q * m + r && r < m;
    if b > q {
      MulMonotone(m, q + 1, b);
    }
  }

  /** The counter after one tick: it counts down only while packing. */
  function PackStep(t: int): (r: int)
    ensures t > 0 ==> r == t - 1
    ensures t <= 0 ==> r == t
  {
    if t > 0 then t - 1 else t
  }

  /** The tick converts the outpost when it brings a running countdown to
      zero or below, which is when the counter stood at exactly 1. */
  predicate ConvertsOn(t: int)
    ensures ConvertsOn(t) <==> t == 1
  {
    t > 0 && t - 1 <= 0
  }

  /** The counter after n ticks. */
  function PackAfter(t: int, n: nat): int {
    if n == 0 then t else PackAfter(PackStep(t), n - 1)
  }

  /** A countdown started at n goes down by one per tick and converts the
      outpost on its n-th tick, and on no earlier tick. */
  lemma {:induction false} PackCountdown(n: int, k: nat)
    requires 0 <= k <= n
    ensures PackAfter(n, k) == n - k
    ensures k < n ==> (ConvertsOn(PackAfter(n, k)) <==> k == n - 1)
  {
    if k > 0 {
      PackCountdown(n - 1, k - 1);
    }
  }

  /** A countdown that is not running stays where it is. */
  lemma {:induction false} IdleStaysIdle(t: int, k: nat)
    requires t <= 0
    ensures PackAfter(t, k) == t
    ensures !ConvertsOn(PackAfter(t, k))
  {
    if k > 0 {
      IdleStaysIdle(t, k - 1);
    }
  }

  /** The commands the outpost offers for packing. */
  datatype PackCommand = StopPack | StartPack | DevPackNow

  /** Stop while packing, start otherwise, and the developer shortcut only
      while packing in developer mode. */
  function PackCommands(packing: bool, devMode: bool): (cs: seq<PackCommand>)
    ensures StopPack in cs <==> packing
    ensures StartPack in cs <==> !packing
    ensures DevPackNow in cs <==> devMode && packing
    ensures |cs| >= 1 && cs[0] == (if packing then StopPack else StartPack)
  {
    (if packing then [StopPack] else [StartPack]) + (if devMode && packing then [DevPackNow] else [])
  }

  class PackingTracker {
    /** Ticks left until the outpost is packed; not packing when <= 0. */
    var ticksTillPacked: int

    constructor()
      ensures ticksTillPacked == -1 && !Packing()
    {
      ticksTillPacked := -1;
    }

    /** Packing is under way while the countdown is positive; the stopped
        value -1 is not packing. */
    predicate Packing()
      reads this
      ensures Packing() ==> ticksTillPacked >= 1
      ensures ticksTillPacked == -1 ==> !Packing()
    {
      ticksTillPacked > 0
    }

    /** One tick of the countdown; the result says whether the outpost must
        now turn into a caravan. */
    method Tick() returns (convert: bool)
      modifies this
      ensures ticksTillPacked == PackStep(old(ticksTillPacked))
      ensures convert <==> ConvertsOn(old(ticksTillPacked))
      ensures !old(Packing()) ==> ticksTillPacked == old(ticksTillPacked) && !convert
    {
      convert := false;
      if Packing() {
        ticksTillPacked := ticksTillPacked - 1;
        if ticksTillPacked <= 0 {
          convert := true;
        }
      }
    }

    /** The stop command: the tracker becomes idle. */
    method StopPacking()
      modifies this
      ensures ticksTillPacked == -1 && !Packing()
    {
      ticksTillPacked := -1;
    }

    /** The start command: the countdown is the packing time scaled by the
        time multiplier. */
    method StartPacking(ticksToPack: int, timeMultiplier: real)
      modifies this
      ensures ticksTillPacked == Scale(ticksToPack, timeMultiplier)
    {
      ticksTillPacked := Scale(ticksToPack, timeMultiplier);
    }

    /** The developer shortcut: the next tick converts the outpost. */
    method PackNow()
      modifies this
      ensures ticksTillPacked == 1 && Packing() && ConvertsOn(ticksTillPacked)
    {
      ticksTillPacked := 1;
    }

    /** Runs an offered command. */
    method Apply(cmd: PackCommand, ticksToPack: int, timeMultiplier: real)
      modifies this
      ensures cmd == StopPack ==> ticksTillPacked == -1
      ensures cmd == StartPack ==> ticksTillPacked == Scale(ticksToPack, timeMultiplier)
      ensures cmd == DevPackNow ==> ticksTillPacked == 1
    {
      match cmd
      case StopPack => StopPacking();
      case StartPack => StartPacking(ticksToPack, timeMultiplier);
      case DevPackNow => PackNow();
    }
  }
}
