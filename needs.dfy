/** The needs scheduler of an outpost: which pawns it looks after on a
    tick, when they rest, and when they are fed. Ageing, resting, the
    health simulation and eating belong to the host game; the scheduler
    decides when they happen, and the model records those decisions as
    effects. */
module Needs {
  import opened Common
  import opened Things
  import opened OutpostLogic

  /** How well occupants rest at an outpost. */
  const OutpostRestEffectiveness: real := 0.75

  /** Occupants eat at most once in this many ticks. */
  const FoodInterval: int := 300

  /** Rest time is from 23:00 to the end of the fifth hour, local time:
      over a day, hour 23 and hours 0 through 5, seven hours in all. */
  predicate IsPawnRestTime(hour: int)
    ensures 0 <= hour < 24 ==> (IsPawnRestTime(hour) <==> hour == 23 || hour < 6)
    ensures 6 <= hour <= 22 ==> !IsPawnRestTime(hour)
  {
    hour >= 23 || hour <= 5
  }

  /** What the scheduler reads of a pawn, taken when a pass starts. */
  datatype PawnView = PawnView(pawn: Pawn, spawned: bool, dead: bool, foodLevel: Option<real>)

  function ViewOf(p: Pawn): (v: PawnView)
    reads p
    ensures v.pawn == p
  {
    PawnView(p, p.spawned, p.dead, p.foodLevel)
  }

  function ViewsOf(ps: seq<Pawn>): (vs: seq<PawnView>)
    reads set i | 0 <= i < |ps| :: ps[i]
    ensures |vs| == |ps|
    ensures forall i :: 0 <= i < |ps| ==> vs[i] == ViewOf(ps[i])
  {
    if ps == [] then [] else [ViewOf(ps[0])] + ViewsOf(ps[1..])
  }

  predicate Satisfyable(v: PawnView) {
    !v.spawned && !v.dead
  }

  /** The scheduler looks after a pawn only when there is one, it is not on
      a map, and it is alive. */
  predicate IsPawnSatisfyable(pawn: Pawn?)
    reads pawn
    ensures IsPawnSatisfyable(pawn) <==> pawn != null && !pawn.spawned && !pawn.dead
  {
    pawn != null && Satisfyable(ViewOf(pawn))
  }

  // ---------------------------------------------------------------------
  // The host's interval test.

  /** The host's per-thing interval test: the game tick plus the thing's
      hash offset leaves no remainder. The host's remainder truncates; a
      zero remainder means the same under either convention. */
  predicate IsHashIntervalTick(ticksGame: int, hashOffset: int, interval: int)
    requires interval > 0
  {
    TruncMod(ticksGame + hashOffset, interval) == 0
  }

  /** A positive multiple of n is at least n: the nonlinear step of
      DivModUnique, kept apart so that its proof sees only these facts. */
  lemma MulAtLeast(n: int, d: int)
    requires n > 0 && d >= 1
    ensures n * d >= n
  {
    assert n * d == n + n * (d - 1);
    assert n * (d - 1) >= 0;
  }

  /** Euclidean division and remainder are the unique pair. */
  lemma DivModUnique(a: int, n: int, q: int, r: int)
    requires n > 0 && a == n * q + r && 0 <= r < n
    ensures a / n == q && a % n == r
  {
    var q0 := a / n;
    var r0 := a % n;
    assert a == n * q0 + r0;
    if q0 > q {
      MulAtLeast(n, q0 - q);
    } else if q0 < q {
      MulAtLeast(n, q - q0);
    }
  }

  /** A truncated remainder is zero exactly when the Euclidean one is. */
  lemma TruncModZero(a: int, n: int)
    requires n > 0
    ensures TruncMod(a, n) == 0 <==> a % n == 0
  {
    if a < 0 {
      var q := (-a) / n;
      var m := (-a) % n;
      assert -a == n * q + m;
      assert TruncMod(a, n) == -m;
      if m == 0 {
        DivModUnique(a, n, -q, 0);
      } else {
        DivModUnique(a, n, -q - 1, n - m);
      }
    }
  }

  lemma ModShift(a: int, k: int, n: int)
    requires n > 0 && a % n == 0
    ensures (a + k) % n == k % n
  {
    var qa := a / n;
    var qk := k / n;
    assert a == n * qa;
    assert k == n * qk + k % n;
    assert a + k == n * (qa + qk) + k % n;
    DivModUnique(a + k, n, qa + qk, k % n);
  }

  /** The test passes once per interval: after a passing tick, a later tick
      passes exactly when a whole number of intervals lies between. */
  lemma HashIntervalPeriodic(t: int, h: int, n: int, k: int)
    requires n > 0 && IsHashIntervalTick(t, h, n)
    ensures IsHashIntervalTick(t + k, h, n) <==> k % n == 0
  {
    TruncModZero(t + h, n);
    TruncModZero(t + k + h, n);
    ModShift(t + h, k, n);
    assert t + k + h == (t + h) + k;
  }

  // ---------------------------------------------------------------------
  // One tick of the scheduler.

  /** The facts a scheduler tick depends on: the local hour, the game tick,
      the pawns the host's health tick kills on this tick, the food the
      outpost hands out, and whether the outpost is spawned. */
  datatype NeedsContext = NeedsContext(hour: int, ticksGame: int, kills: set<Pawn>, food: ThingDef, outpostSpawned: bool)

  /** A pawn is fed on its interval tick when its food level is at or
      below the level at which its race wants to eat, the outpost's food is
      a nutrition-giving ingestible that people can eat, and the pawn's
      race can eat it. */
  predicate FoodGate(v: PawnView, ctx: NeedsContext) {
    IsHashIntervalTick(ctx.ticksGame, v.pawn.hashOffset, FoodInterval) &&
    v.foodLevel.Some? && v.foodLevel.value <= v.pawn.wantEatLevel &&
    ctx.food.nutritionGivingIngestible && ctx.food.humanEdible &&
    ctx.food in v.pawn.canEverEat
  }

  function FoodEffects(v: PawnView, ctx: NeedsContext): (es: seq<Effect>)
    ensures es == [] || es == [Fed(v.pawn, ctx.food)]
    ensures es != [] <==> FoodGate(v, ctx)
  {
    if FoodGate(v, ctx) then [Fed(v.pawn, ctx.food)] else []
  }

  /** Food is given at most once per interval: a pawn fed on a tick is not
      fed on any of the following 299 ticks. */
  lemma FedOncePerInterval(v: PawnView, ctx: NeedsContext, k: int)
    requires FoodEffects(v, ctx) != [] && 0 < k < FoodInterval
    ensures FoodEffects(v, ctx.(ticksGame := ctx.ticksGame + k)) == []
  {
    HashIntervalPeriodic(ctx.ticksGame, v.pawn.hashOffset, FoodInterval, k);
  }

  function RestEffects(p: Pawn, hour: int): (es: seq<Effect>)
    ensures es == (if IsPawnRestTime(hour) then [Rested(p, OutpostRestEffectiveness)] else [])
  {
    if IsPawnRestTime(hour) then [Rested(p, OutpostRestEffectiveness)] else []
  }

  /** The occupant step for one pawn. A pawn that is not satisfyable, or
      not an occupant, is skipped. Otherwise the pawn ages, rests during
      rest time, and goes through the health tick; a pawn the health tick
      kills is reported dead before its food step. */
  function OccupantStep(h: Holdings, v: PawnView, ctx: NeedsContext): Holdings {
    if !Satisfyable(v) || v.pawn !in h.occupants then h
    else
      var p := v.pawn;
      var h1 := h.(log := h.log + [Aged(p)] + RestEffects(p, ctx.hour));
      var h2 := if p in ctx.kills then MemberDied(h1, p, true, ctx.outpostSpawned) else h1;
      h2.(log := h2.log + FoodEffects(v, ctx))
  }

  /** What the occupant step does: an unsatisfyable pawn or one off the
      roster is skipped. Otherwise the log begins with the ageing and the
      rest and ends with the food step; the pawn stays on the roster exactly
      when it survives; a death adds its corpse; a survivor changes neither
      roster nor inventory. No other member leaves, nobody joins, and the
      roster keeps no repeats. */
  lemma OccupantStepSpec(h: Holdings, v: PawnView, ctx: NeedsContext)
    ensures var r := OccupantStep(h, v, ctx);
            (!Satisfyable(v) || v.pawn !in h.occupants ==> r == h) &&
            (Satisfyable(v) && v.pawn in h.occupants ==>
              |h.log| + 1 + |RestEffects(v.pawn, ctx.hour)| <= |r.log| &&
              r.log[..|h.log| + 1 + |RestEffects(v.pawn, ctx.hour)|]
                == h.log + [Aged(v.pawn)] + RestEffects(v.pawn, ctx.hour) &&
              r.log[|r.log| - |FoodEffects(v, ctx)|..] == FoodEffects(v, ctx) &&
              (v.pawn in r.occupants <==> v.pawn !in ctx.kills) &&
              (v.pawn in ctx.kills ==> r.inventory == h.inventory + [CorpseOf(v.pawn)]) &&
              (v.pawn !in ctx.kills ==> r.inventory == h.inventory && r.occupants == h.occupants)) &&
            (forall i :: 0 <= i < |h.occupants| && h.occupants[i] != v.pawn ==> h.occupants[i] in r.occupants) &&
            (forall i :: 0 <= i < |r.occupants| ==> r.occupants[i] in h.occupants) &&
            (NoDups(h.occupants) ==> NoDups(r.occupants))
  {
    if Satisfyable(v) && v.pawn in h.occupants {
      OccupantStepLog(h, v, ctx);
      OccupantStepMembers(h, v, ctx);
    }
  }

  lemma OccupantStepLog(h: Holdings, v: PawnView, ctx: NeedsContext)
    requires Satisfyable(v) && v.pawn in h.occupants
    ensures var r := OccupantStep(h, v, ctx);
            |h.log| + 1 + |RestEffects(v.pawn, ctx.hour)| <= |r.log| &&
            r.log[..|h.log| + 1 + |RestEffects(v.pawn, ctx.hour)|]
              == h.log + [Aged(v.pawn)] + RestEffects(v.pawn, ctx.hour) &&
            r.log[|r.log| - |FoodEffects(v, ctx)|..] == FoodEffects(v, ctx)
  {
    var p := v.pawn;
    var h1 := h.(log := h.log + [Aged(p)] + RestEffects(p, ctx.hour));
    var h2 := if p in ctx.kills then MemberDied(h1, p, true, ctx.outpostSpawned) else h1;
    var n := |h1.log|;
    assert |h2.log| >= n && h2.log[..n] == h1.log by {
      if p in ctx.kills {
        MemberDiedSpec(h1, p, true, ctx.outpostSpawned);
      }
    }
    var r := h2.(log := h2.log + FoodEffects(v, ctx));
    assert r.log[..n] == h2.log[..n];
  }

  lemma OccupantStepMembers(h: Holdings, v: PawnView, ctx: NeedsContext)
    requires Satisfyable(v) && v.pawn in h.occupants
    ensures var r := OccupantStep(h, v, ctx);
            (v.pawn in r.occupants <==> v.pawn !in ctx.kills) &&
            (v.pawn in ctx.kills ==> r.inventory == h.inventory + [CorpseOf(v.pawn)]) &&
            (v.pawn !in ctx.kills ==> r.inventory == h.inventory && r.occupants == h.occupants) &&
            (forall i :: 0 <= i < |h.occupants| && h.occupants[i] != v.pawn ==> h.occupants[i] in r.occupants) &&
            (forall i :: 0 <= i < |r.occupants| ==> r.occupants[i] in h.occupants) &&
            (NoDups(h.occupants) ==> NoDups(r.occupants))
  {
    var p := v.pawn;
    var h1 := h.(log := h.log + [Aged(p)] + RestEffects(p, ctx.hour));
    MemberDiedSpec(h1, p, true, ctx.outpostSpawned);
  }

  /** The occupant pass: the step for every pawn the roster held when the
      pass began, in roster order. */
  function OccupantPass(h: Holdings, vs: seq<PawnView>, ctx: NeedsContext): Holdings
    decreases |vs|
  {
    if vs == [] then h
    else OccupantStep(OccupantPass(h, vs[..|vs| - 1], ctx), vs[|vs| - 1], ctx)
  }

  /** Whether the pass kills the pawn: the health tick kills it on a turn
      where the pawn is looked after. */
  predicate KilledIn(vs: seq<PawnView>, q: Pawn, ctx: NeedsContext) {
    q in ctx.kills && exists i :: 0 <= i < |vs| && vs[i].pawn == q && Satisfyable(vs[i])
  }

  /** One step removes a pawn from the roster exactly when it kills that
      pawn. */
  lemma OccupantStepRoster(h: Holdings, v: PawnView, ctx: NeedsContext, q: Pawn)
    ensures q in OccupantStep(h, v, ctx).occupants <==>
              q in h.occupants && !(q in ctx.kills && v.pawn == q && Satisfyable(v))
    ensures NoDups(h.occupants) ==> NoDups(OccupantStep(h, v, ctx).occupants)
  {
    var r := OccupantStep(h, v, ctx);
    OccupantStepSpec(h, v, ctx);
    if Satisfyable(v) && v.pawn in h.occupants && q != v.pawn {
      if q in h.occupants {
        var i :| 0 <= i < |h.occupants| && h.occupants[i] == q;
      }
      if q in r.occupants {
        var i :| 0 <= i < |r.occupants| && r.occupants[i] == q;
      }
    }
  }

  lemma KilledInSnoc(vs: seq<PawnView>, q: Pawn, ctx: NeedsContext)
    requires vs != []
    ensures var v := vs[|vs| - 1];
            KilledIn(vs, q, ctx) <==>
              KilledIn(vs[..|vs| - 1], q, ctx) || (q in ctx.kills && v.pawn == q && Satisfyable(v))
  {
    var init := vs[..|vs| - 1];
    var v := vs[|vs| - 1];
    if KilledIn(vs, q, ctx) && !(v.pawn == q && Satisfyable(v)) {
      var i :| 0 <= i < |vs| && vs[i].pawn == q && Satisfyable(vs[i]);
      assert i < |init| && init[i] == vs[i];
    }
    if KilledIn(init, q, ctx) {
      var i :| 0 <= i < |init| && init[i].pawn == q && Satisfyable(init[i]);
      assert vs[i] == init[i];
    }
  }

  /** After the pass, the roster holds exactly the pawns it held before
      that the pass did not kill, still without repeats. */
  lemma {:induction false} OccupantPassRoster(h: Holdings, vs: seq<PawnView>, ctx: NeedsContext, q: Pawn)
    ensures q in OccupantPass(h, vs, ctx).occupants <==> q in h.occupants && !KilledIn(vs, q, ctx)
    ensures NoDups(h.occupants) ==> NoDups(OccupantPass(h, vs, ctx).occupants)
    decreases |vs|
  {
    if vs != [] {
      var init := vs[..|vs| - 1];
      OccupantPassRoster(h, init, ctx, q);
      OccupantStepRoster(OccupantPass(h, init, ctx), vs[|vs| - 1], ctx, q);
      KilledInSnoc(vs, q, ctx);
    }
  }

  /** A pass in which nobody dies changes neither the roster, nor the
      inventory, nor whether the outpost is abandoned. */
  lemma {:induction false} OccupantPassNoDeaths(h: Holdings, vs: seq<PawnView>, ctx: NeedsContext)
    requires forall i :: 0 <= i < |vs| ==> vs[i].pawn !in ctx.kills
    ensures OccupantPass(h, vs, ctx).occupants == h.occupants
    ensures OccupantPass(h, vs, ctx).inventory == h.inventory
    ensures OccupantPass(h, vs, ctx).abandoned == h.abandoned
    decreases |vs|
  {
    if vs != [] {
      OccupantPassNoDeaths(h, vs[..|vs| - 1], ctx);
    }
  }

  /** The occupant step takes the pawn off the roster: the health tick
      kills a satisfyable occupant. */
  predicate DiesIn(h: Holdings, v: PawnView, ctx: NeedsContext) {
    Satisfyable(v) && v.pawn in h.occupants && v.pawn in ctx.kills
  }

  /** The occupant pass as the source runs it. It enumerates the live
      roster, so the first death, which takes the pawn off that roster,
      makes the next step of the enumeration throw: the pawns after the
      first to die are not looked after. The result is the state reached
      and whether the pass threw. */
  function OccupantPassAsWritten(h: Holdings, vs: seq<PawnView>, ctx: NeedsContext): (r: (Holdings, bool))
    decreases |vs|
    ensures r.1 <==> exists i :: 0 <= i < |vs| && vs[i].pawn in ctx.kills && DiesAt(h, vs, i, ctx)
  {
    if vs == [] then (h, false)
    else
      var h1 := OccupantStep(h, vs[0], ctx);
      if DiesIn(h, vs[0], ctx) then (h1, true)
      else OccupantPassAsWritten(h1, vs[1..], ctx)
  }

  /** The pass reaches the pawn at index i with nobody dead before it, and
      the pawn dies there. */
  predicate DiesAt(h: Holdings, vs: seq<PawnView>, i: nat, ctx: NeedsContext)
    requires i < |vs|
    decreases i
  {
    if i == 0 then DiesIn(h, vs[0], ctx)
    else !DiesIn(h, vs[0], ctx) && DiesAt(OccupantStep(h, vs[0], ctx), vs[1..], i - 1, ctx)
  }

  /** The snapshot pass, peeled from the front: the first pawn's step, then
      the pass over the others. */
  lemma {:induction false} OccupantPassCons(h: Holdings, vs: seq<PawnView>, ctx: NeedsContext)
    requires vs != []
    ensures OccupantPass(h, vs, ctx) == OccupantPass(OccupantStep(h, vs[0], ctx), vs[1..], ctx)
    decreases |vs|
  {
    if |vs| > 1 {
      var init := vs[..|vs| - 1];
      OccupantPassCons(h, init, ctx);
      assert init[1..] == vs[1..][..|vs[1..]| - 1];
      assert vs[1..][|vs[1..]| - 1] == vs[|vs| - 1];
    }
  }

  /** A pass in which nobody dies runs to the end as written, and then
      agrees with the snapshot pass. */
  lemma {:induction false} OccupantPassAsWrittenAgrees(h: Holdings, vs: seq<PawnView>, ctx: NeedsContext)
    requires forall i :: 0 <= i < |vs| ==> vs[i].pawn !in ctx.kills
    ensures OccupantPassAsWritten(h, vs, ctx) == (OccupantPass(h, vs, ctx), false)
    decreases |vs|
  {
    if vs != [] {
      OccupantPassCons(h, vs, ctx);
      OccupantPassAsWrittenAgrees(OccupantStep(h, vs[0], ctx), vs[1..], ctx);
    }
  }

  /** When the first of two occupants dies, the pass as written throws
      before the second is looked after; the snapshot pass ages it, rests it
      and feeds it. */
  lemma FirstDeathStopsPass(h: Holdings, vs: seq<PawnView>, ctx: NeedsContext)
    requires |vs| == 2 && DiesIn(h, vs[0], ctx)
    requires Satisfyable(vs[1]) && vs[1].pawn in h.occupants && vs[1].pawn != vs[0].pawn
    requires vs[1].pawn !in ctx.kills
    ensures OccupantPassAsWritten(h, vs, ctx) == (OccupantStep(h, vs[0], ctx), true)
    ensures OccupantPass(h, vs, ctx).log
         == OccupantPassAsWritten(h, vs, ctx).0.log + [Aged(vs[1].pawn)]
            + RestEffects(vs[1].pawn, ctx.hour) + FoodEffects(vs[1], ctx)
  {
    var h1 := OccupantStep(h, vs[0], ctx);
    OccupantStepRoster(h, vs[0], ctx, vs[1].pawn);
    assert vs[..1] == [vs[0]] && vs[..1][..0] == [];
    assert OccupantPass(h, vs[..1], ctx) == h1;
  }

  /** The visitor step: a satisfyable member of the docked caravan is only
      fed; nothing else about it is looked after. */
  function VisitorStep(h: Holdings, v: PawnView, ctx: NeedsContext): (r: Holdings)
    ensures r.occupants == h.occupants && r.inventory == h.inventory && r.abandoned == h.abandoned
    ensures r.log == h.log + (if Satisfyable(v) then FoodEffects(v, ctx) else [])
  {
    if Satisfyable(v) then h.(log := h.log + FoodEffects(v, ctx)) else h
  }

  /** The visitor pass over the docked caravan's members, in order. */
  function VisitorPass(h: Holdings, vs: seq<PawnView>, ctx: NeedsContext): (r: Holdings)
    decreases |vs|
    ensures r.occupants == h.occupants && r.inventory == h.inventory && r.abandoned == h.abandoned
    ensures |h.log| <= |r.log| && r.log[..|h.log|] == h.log
  {
    if vs == [] then h
    else
      var prev := VisitorPass(h, vs[..|vs| - 1], ctx);
      var r := VisitorStep(prev, vs[|vs| - 1], ctx);
      assert r.log[..|prev.log|] == prev.log;
      r
  }

  /** A log entry that is a meal given to a satisfyable visitor whose
      food gate is open. */
  predicate FedVisitor(e: Effect, vs: seq<PawnView>, ctx: NeedsContext) {
    exists i :: 0 <= i < |vs| && Satisfyable(vs[i]) && FoodGate(vs[i], ctx) && e == Fed(vs[i].pawn, ctx.food)
  }

  /** The visitor pass only feeds: every entry it adds to the log is a meal
      given to a satisfyable visitor whose food gate is open. */
  lemma {:induction false} VisitorPassOnlyFeeds(h: Holdings, vs: seq<PawnView>, ctx: NeedsContext, k: int)
    requires |h.log| <= k < |VisitorPass(h, vs, ctx).log|
    ensures FedVisitor(VisitorPass(h, vs, ctx).log[k], vs, ctx)
    decreases |vs|
  {
    var init := vs[..|vs| - 1];
    var prev := VisitorPass(h, init, ctx);
    var r := VisitorPass(h, vs, ctx);
    if k < |prev.log| {
      VisitorPassOnlyFeeds(h, init, ctx, k);
      assert r.log[k] == prev.log[k];
      var i :| 0 <= i < |init| && Satisfyable(init[i]) && FoodGate(init[i], ctx) && prev.log[k] == Fed(init[i].pawn, ctx.food);
      assert vs[i] == init[i];
    } else {
      var i := |vs| - 1;
      assert Satisfyable(vs[i]) && FoodGate(vs[i], ctx) && r.log[k] == Fed(vs[i].pawn, ctx.food);
    }
  }

  /** One tick of the scheduler: the visitor pass always, then the occupant
      pass only when the outpost has no map. */
  function NeedsTick(h: Holdings, visitors: seq<PawnView>, occupants: seq<PawnView>, hasMap: bool, ctx: NeedsContext): (r: Holdings)
    ensures hasMap ==> r == VisitorPass(h, visitors, ctx)
    ensures !hasMap ==> r == OccupantPass(VisitorPass(h, visitors, ctx), occupants, ctx)
    ensures hasMap ==> r.occupants == h.occupants && r.inventory == h.inventory
  {
    var afterVisitors := VisitorPass(h, visitors, ctx);
    if hasMap then afterVisitors else OccupantPass(afterVisitors, occupants, ctx)
  }
}
