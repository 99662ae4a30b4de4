/** A verb that fires from a magazine: the shots left, reloading from an ammo
    stack in whole shots of a fixed number of items each, unloading, and
    the availability rules that the fire command follows. */
module Reloading {
  import opened Common

  /** An ammo stack: its definition and how many items it holds. */
  datatype Ammo = Ammo(def: string, stackCount: int)

  /** The verb's reload configuration. The ammo filter is the set of
      definitions it accepts; anyAllowedDef is the one an unloaded stack is
      made of. */
  datatype ReloadProps = ReloadProps(
    ammoFilter: set<string>,
    anyAllowedDef: string,
    itemsPerShot: int,
    maxShots: int,
    reloadTimePerShot: real,
    startLoaded: bool)

  /** Sixty ticks to the second, rounded to the nearest tick. */
  function SecondsToTicks(seconds: real): int {
    RoundToInt(60.0 * seconds)
  }

  /** The shots a reload adds: as many whole shots as the stack holds, but
      no more than the magazine has room for. */
  function ShotsToFill(props: ReloadProps, shotsRemaining: int, stackCount: int): (r: int)
    requires props.itemsPerShot != 0
    ensures r <= props.maxShots - shotsRemaining
    ensures r <= TruncDiv(stackCount, props.itemsPerShot)
    ensures r == props.maxShots - shotsRemaining || r == TruncDiv(stackCount, props.itemsPerShot)
  {
    var fromStack := TruncDiv(stackCount, props.itemsPerShot);
    var room := props.maxShots - shotsRemaining;
    if fromStack < room then fromStack else room
  }

  /** With a positive shot size, a reload never takes more items than the
      stack holds, and never overfills a magazine that was not overfull. */
  lemma ShotsToFillBounds(props: ReloadProps, shotsRemaining: int, stackCount: int)
    requires props.itemsPerShot > 0 && stackCount >= 0
    ensures ShotsToFill(props, shotsRemaining, stackCount) * props.itemsPerShot <= stackCount
    ensures shotsRemaining <= props.maxShots ==>
              0 <= ShotsToFill(props, shotsRemaining, stackCount) &&
              shotsRemaining + ShotsToFill(props, shotsRemaining, stackCount) <= props.maxShots
  {
    var n := ShotsToFill(props, shotsRemaining, stackCount);
    var q := TruncDiv(stackCount, props.itemsPerShot);
    assert q == stackCount / props.itemsPerShot;
    assert q * props.itemsPerShot <= stackCount;
    if n < q {
      MulMonotone(n, q, props.itemsPerShot);
    }
  }

  lemma MulMonotone(a: int, b: int, c: int)
    requires a <= b && c >= 0
    ensures a * c <= b * c
  {
  }

  /** From a stack holding at least one shot, a reload splits off a
      positive count exactly when the magazine has room. */
  lemma SplitCountPositive(props: ReloadProps, shotsRemaining: int, stackCount: int)
    requires props.itemsPerShot > 0 && stackCount >= props.itemsPerShot
    ensures (ShotsToFill(props, shotsRemaining, stackCount) * props.itemsPerShot > 0)
         == (shotsRemaining < props.maxShots)
  {
    var n := ShotsToFill(props, shotsRemaining, stackCount);
    assert TruncDiv(stackCount, props.itemsPerShot) >= 1 by {
      assert stackCount / props.itemsPerShot >= props.itemsPerShot / props.itemsPerShot;
    }
    if n > 0 {
      MulMonotone(1, n, props.itemsPerShot);
    } else {
      MulMonotone(n, 0, props.itemsPerShot);
    }
  }

  /** The unloaded stack as written: one item per shot left. */
  function UnloadedCountAsWritten(props: ReloadProps, shotsRemaining: int): (r: int)
    ensures r == shotsRemaining
  {
    shotsRemaining
  }

  /** The unloaded stack as intended: the items the shots left were loaded
      from. */
  function UnloadedCount(props: ReloadProps, shotsRemaining: int): (r: int)
    ensures props.itemsPerShot == 1 ==> r == UnloadedCountAsWritten(props, shotsRemaining)
  {
    shotsRemaining * props.itemsPerShot
  }

  /** As written, reloading an empty magazine and unloading it loses ammo
      whenever a shot takes more than one item: with two items a shot, a
      five-shot magazine and a stack of ten, the reload takes all ten items
      and the unload gives back five. */
  lemma UnloadAsWrittenLosesAmmo()
    ensures var props := ReloadProps({"Ammo"}, "Ammo", 2, 5, 1.0, false);
            var shots := ShotsToFill(props, 0, 10);
            shots * props.itemsPerShot == 10 && UnloadedCountAsWritten(props, 0 + shots) == 5
  {
    var props := ReloadProps({"Ammo"}, "Ammo", 2, 5, 1.0, false);
    assert TruncDiv(10, 2) == 5;
  }

  /** As intended, ammo is conserved: the items a reload takes plus those
      the magazine held come back in full when it is unloaded. */
  lemma ReloadThenUnloadConserves(props: ReloadProps, shotsRemaining: int, stackCount: int)
    requires props.itemsPerShot != 0
    ensures var shots := ShotsToFill(props, shotsRemaining, stackCount);
            UnloadedCount(props, shotsRemaining + shots)
              == UnloadedCount(props, shotsRemaining) + shots * props.itemsPerShot
  {
    var shots := ShotsToFill(props, shotsRemaining, stackCount);
    assert (shotsRemaining + shots) * props.itemsPerShot == shotsRemaining * props.itemsPerShot + shots * props.itemsPerShot;
  }

  /** The reload state of one verb. */
  class Reloadable {
    const props: ReloadProps
    var shotsRemaining: int

    constructor(props: ReloadProps)
      ensures this.props == props && shotsRemaining == 0
    {
      this.props := props;
      shotsRemaining := 0;
    }

    /** A full magazine when the verb starts loaded, else an empty one. */
    method Initialize()
      modifies this
      ensures shotsRemaining == if props.startLoaded then props.maxShots else 0
      ensures props.startLoaded ==> !NeedsReload()
    {
      shotsRemaining := if props.startLoaded then props.maxShots else 0;
    }

    /** A stack can reload the verb when there is one, the filter accepts
        it, and it holds at least one shot's worth. */
    predicate CanReloadFrom(ammo: Option<Ammo>)
      ensures CanReloadFrom(ammo) ==> ammo.Some? && ammo.value.def in props.ammoFilter
      ensures CanReloadFrom(ammo) ==> ammo.value.stackCount >= props.itemsPerShot
      ensures ammo.Some? && ammo.value.def in props.ammoFilter && ammo.value.stackCount >= props.itemsPerShot ==>
                CanReloadFrom(ammo)
    {
      ammo.Some? && ammo.value.def in props.ammoFilter && ammo.value.stackCount >= props.itemsPerShot
    }

    function ShotsToReload(ammo: Ammo): (r: int)
      reads this
      requires props.itemsPerShot != 0
      ensures r == ShotsToFill(props, shotsRemaining, ammo.stackCount)
    {
      ShotsToFill(props, shotsRemaining, ammo.stackCount)
    }

    /** A reload takes the per-shot time for each shot it adds; no ammo
        takes no time. */
    function ReloadTicks(ammo: Option<Ammo>): (r: int)
      reads this
      requires ammo.Some? ==> props.itemsPerShot != 0
      ensures ammo.None? ==> r == 0
      ensures ammo.Some? ==> r == SecondsToTicks(props.reloadTimePerShot * (ShotsToReload(ammo.value) as real))
    {
      if ammo.None? then 0 else SecondsToTicks(props.reloadTimePerShot * (ShotsToReload(ammo.value) as real))
    }

    predicate NeedsReload()
      reads this
      ensures NeedsReload() <==> shotsRemaining < props.maxShots
    {
      shotsRemaining < props.maxShots
    }

    /** Reloads from the stack: an unusable stack changes nothing and gives
        nothing. Otherwise the shots are added, and then their items are
        split off the stack, which is used up when nothing is left of it.
        The host's split refuses a count that is not positive: with a full
        or overfull magazine the split throws, after the count of shots has
        been updated, and the stack stays whole. */
    method Reload(ammo: Option<Ammo>) returns (taken: Outcome<Option<Ammo>>, rest: Option<Ammo>)
      requires CanReloadFrom(ammo) ==> props.itemsPerShot != 0
      modifies this
      ensures !CanReloadFrom(ammo) ==> taken == Returns(None) && rest == ammo && shotsRemaining == old(shotsRemaining)
      ensures CanReloadFrom(ammo) ==>
                var shots := ShotsToFill(props, old(shotsRemaining), ammo.value.stackCount);
                var n := shots * props.itemsPerShot;
                shotsRemaining == old(shotsRemaining) + shots &&
                (n <= 0 ==> taken == Throws("ArgumentException") && rest == ammo) &&
                (n > 0 ==>
                   taken == Returns(Some(Ammo(ammo.value.def, n))) &&
                   rest == (if n >= ammo.value.stackCount then None else Some(Ammo(ammo.value.def, ammo.value.stackCount - n))))
      ensures CanReloadFrom(ammo) && props.itemsPerShot > 0 ==> (taken.Throws? <==> !old(NeedsReload()))
      ensures taken.Returns? && taken.value.Some? && props.itemsPerShot > 0 ==>
                taken.value.value.stackCount <= ammo.value.stackCount &&
                taken.value.value.stackCount + (if rest.Some? then rest.value.stackCount else 0) == ammo.value.stackCount
      ensures CanReloadFrom(ammo) && props.itemsPerShot > 0 && old(shotsRemaining) <= props.maxShots ==>
                old(shotsRemaining) <= shotsRemaining <= props.maxShots
    {
      if !CanReloadFrom(ammo) {
        return Returns(None), ammo;
      }
      var stack := ammo.value;
      var shotsToFill := ShotsToReload(stack);
      if props.itemsPerShot > 0 {
        ShotsToFillBounds(props, shotsRemaining, stack.stackCount);
        SplitCountPositive(props, shotsRemaining, stack.stackCount);
      }
      shotsRemaining := shotsRemaining + shotsToFill;
      var n := shotsToFill * props.itemsPerShot;
      if n <= 0 {
        return Throws("ArgumentException"), ammo;
      }
      taken := Returns(Some(Ammo(stack.def, n)));
      rest := if n >= stack.stackCount then None else Some(Ammo(stack.def, stack.stackCount - n));
    }

    /** Empties the magazine into a stack of the filter's ammo, which the
        host places next to the holder. */
    method Unload() returns (stack: Ammo)
      modifies this
      ensures stack == Ammo(props.anyAllowedDef, UnloadedCount(props, old(shotsRemaining)))
      ensures shotsRemaining == 0
    {
      stack := Ammo(props.anyAllowedDef, shotsRemaining * props.itemsPerShot);
      shotsRemaining := 0;
    }

    /** Each shot fired takes one from the count, with no lower bound. */
    method NotifyShotFired()
      modifies this
      ensures shotsRemaining == old(shotsRemaining) - 1
    {
      shotsRemaining := shotsRemaining - 1;
    }

    /** The verb can fire when enough shots are left for the rest of the
        burst under way, or for a whole burst. */
    predicate Available(bursting: bool, burstShotsLeft: int, burstShotCount: int)
      reads this
      ensures Available(bursting, burstShotsLeft, burstShotCount) && !bursting && burstShotCount > 0 ==>
                shotsRemaining > 0
      ensures !bursting && shotsRemaining >= burstShotCount ==> Available(bursting, burstShotsLeft, burstShotCount)
      ensures bursting && burstShotsLeft <= 0 && shotsRemaining >= 0 ==> Available(bursting, burstShotsLeft, burstShotCount)
    {
      shotsRemaining >= (if bursting then burstShotsLeft else burstShotCount)
    }

    /** The fire command is disabled when fewer shots are left than a
        burst fires; it then names the items a full reload would take. */
    function CommandDisabled(burstShotCount: int): (r: Option<int>)
      reads this
      ensures r.Some? <==> !Available(false, 0, burstShotCount)
      ensures r.Some? ==> r.value == (props.maxShots - shotsRemaining) * props.itemsPerShot
    {
      if shotsRemaining < burstShotCount then Some((props.maxShots - shotsRemaining) * props.itemsPerShot) else None
    }
  }
}
