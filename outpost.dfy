/** The outpost: a settlement on the world map that holds an inventory of
    stacks and a roster of occupant pawns, produces goods on a countdown,
    can pack back into a caravan, and looks after its occupants' needs. */
module Outposts {
  import opened Common
  import opened Things
  import opened Utils
  import opened Config
  import opened Rules
  import opened Settings
  import opened OutpostLogic
  import opened Needs
  import opened Packing
  import opened Production
  import opened Raid
  import opened Visitor

  /** The range an outpost reports when its configuration gives none. */
  const InvalidRange: int := -1

  lemma DeductUnfold(inv: seq<Thing>, i: nat, costs: seq<Cost>)
    requires i < |inv|
    ensures var step := DeductStep(inv[i], costs);
      var rest := Deduct(inv[i + 1..], step.1);
      Deduct(inv[i..], costs) == ((if step.0.Some? then [step.0.value] else []) + rest.0, rest.1)
  {
    assert inv[i..][0] == inv[i] && inv[i..][1..] == inv[i + 1..];
  }

  /** One more stack offered, with the stacks kept so far in front. */
  lemma DeductAccumulate(inv: seq<Thing>, i: nat, left: seq<Cost>, kept: seq<Thing>)
    requires i < |inv|
    ensures var step := DeductStep(inv[i], left);
      kept + Deduct(inv[i..], left).0
        == (kept + (if step.0.Some? then [step.0.value] else [])) + Deduct(inv[i + 1..], step.1).0 &&
      Deduct(inv[i..], left).1 == Deduct(inv[i + 1..], step.1).1
  {
    DeductUnfold(inv, i, left);
    var step := DeductStep(inv[i], left);
    var head := if step.0.Some? then [step.0.value] else [];
    var tail := Deduct(inv[i + 1..], step.1).0;
    assert kept + (head + tail) == (kept + head) + tail;
  }

  /** The removal predicate the deduction runs on one stack: the stack as
      it stays (None when it is removed) and the costs still owed. */
  method OfferStack(t: Thing, costs: seq<Cost>) returns (stays: Option<Thing>, left: seq<Cost>)
    ensures (stays, left) == DeductStep(t, costs)
  {
    stays, left := Some(t), costs;
    match FindDef(costs, t.def) {
      case None =>
      case Some(k) =>
        if costs[k].count > t.stackCount {
          stays := None;
          left := costs[k := Cost(t.def, costs[k].count - t.stackCount)];
        } else if costs[k].count < t.stackCount {
          stays := Some(t.(stackCount := t.stackCount - costs[k].count));
          left := RemoveAt(costs, k);
        } else {
          stays := None;
          left := RemoveAt(costs, k);
        }
    }
  }

  /** The cost deduction as the host runs it over the inventory: each stack
      is offered, in order, to the first cost entry of its definition. */
  method RemoveCosts(inv: seq<Thing>, costs: seq<Cost>) returns (kept: seq<Thing>, left: seq<Cost>)
    ensures (kept, left) == Deduct(inv, costs)
  {
    kept, left := [], costs;
    var i := 0;
    assert inv[0..] == inv;
    assert [] + Deduct(inv, costs).0 == Deduct(inv, costs).0;
    while i < |inv|
      invariant 0 <= i <= |inv|
      invariant kept + Deduct(inv[i..], left).0 == Deduct(inv, costs).0
      invariant Deduct(inv[i..], left).1 == Deduct(inv, costs).1
    {
      var stays, rest := OfferStack(inv[i], left);
      DeductAccumulate(inv, i, left, kept);
      if stays.Some? {
        kept := kept + [stays.value];
      }
      left := rest;
      i := i + 1;
    }
    assert inv[|inv|..] == [];
    assert kept + [] == kept;
  }

  /** The list without the first stack equal to the one asked for. */
  function RemoveFirst(s: seq<Thing>, t: Thing): (r: seq<Thing>)
    ensures t in s ==> multiset(r) + multiset{t} == multiset(s)
    ensures t !in s ==> r == s
  {
    if s == [] then []
    else
      assert s == [s[0]] + s[1..];
      if s[0] == t then s[1..] else [s[0]] + RemoveFirst(s[1..], t)
  }

  /** Taking back a stack just added restores what was held; when no equal
      stack was held before, it restores the very list. */
  lemma AddThenTake(s: seq<Thing>, t: Thing)
    ensures multiset(RemoveFirst(s + [t], t)) == multiset(s)
    ensures t !in s ==> RemoveFirst(s + [t], t) == s
  {
    assert t in s + [t];
    var r := RemoveFirst(s + [t], t);
    assert multiset(s + [t]) == multiset(s) + multiset{t};
    assert multiset(r) == (multiset(r) + multiset{t}) - multiset{t};
    if t !in s {
      AddThenTakeFresh(s, t);
    }
  }

  lemma {:induction false} AddThenTakeFresh(s: seq<Thing>, t: Thing)
    requires t !in s
    ensures RemoveFirst(s + [t], t) == s
  {
    if s == [] {
      assert s + [t] == [t];
    } else {
      assert (s + [t])[0] == s[0] && (s + [t])[1..] == s[1..] + [t];
      AddThenTakeFresh(s[1..], t);
    }
  }

  /** Every stack is either a pawn or not: splitting a list loses nothing. */
  lemma {:induction false} SplitPawns(s: seq<Thing>)
    ensures |PawnsIn(s)| + |NonPawnThings(s)| == |s|
  {
    if s != [] {
      SplitPawns(s[1..]);
    }
  }

  /** Splitting a list that grows by one stack. */
  lemma SplitSnoc(a: seq<Thing>, t: Thing)
    ensures PawnsIn(a + [t]) == PawnsIn(a) + (if t.kind.PawnKind? then [t.kind.pawn] else [])
    ensures NonPawnThings(a + [t]) == NonPawnThings(a) + (if t.kind.PawnKind? then [] else [t])
  {
    PawnsInAppend(a, [t]);
    NonPawnThingsAppend(a, [t]);
    OneThing(t);
  }

  lemma OneThing(t: Thing)
    ensures PawnsIn([t]) == if t.kind.PawnKind? then [t.kind.pawn] else []
    ensures NonPawnThings([t]) == if t.kind.PawnKind? then [] else [t]
  {
    assert [t][1..] == [];
  }

  /** Admitting one more pawn to a roster. */
  lemma AdmitStep(ext: OutpostExtension, roster0: seq<Pawn>, pawns: seq<Pawn>, i: nat, roster: seq<Pawn>)
    requires i < |pawns| && roster == Admit(ext, roster0, pawns[..i])
    ensures pawns[i] !in Without(roster, pawns[i])
    ensures Admit(ext, roster0, pawns[..i + 1])
         == if CanAddPawn(ext, pawns[i]).accepted then Without(roster, pawns[i]) + [pawns[i]] else roster
  {
    assert pawns[..i + 1][..i] == pawns[..i];
    WithoutMember(roster, pawns[i], pawns[i]);
  }

  /** The letter's lists grow by one stack at a time. */
  lemma ManifestSnoc(things: seq<Thing>, i: nat)
    requires i < |things|
    ensures var prev := Manifest(things[..i]);
            var t := things[i];
            Manifest(things[..i + 1])
              == if IsSingle(t) then (prev.0 + [t], prev.1) else (prev.0, AddToCounts(prev.1, t))
  {
    assert things[..i + 1][..i] == things[..i];
  }

  /** Unpacking one more stack of an inventory into a caravan. */
  lemma UnpackStep(occ0: seq<Pawn>, inv0: seq<Thing>, k: nat)
    requires k < |inv0|
    ensures var t := inv0[k];
            occ0 + PawnsIn(inv0[..k + 1])
              == (occ0 + PawnsIn(inv0[..k])) + (if t.kind.PawnKind? then [t.kind.pawn] else []) &&
            NonPawnThings(inv0[..k + 1]) == NonPawnThings(inv0[..k]) + (if t.kind.PawnKind? then [] else [t]) &&
            inv0[k..][1..] == inv0[k + 1..]
  {
    assert inv0[..k + 1] == inv0[..k] + [inv0[k]];
    SplitSnoc(inv0[..k], inv0[k]);
  }

  /** Some pawn of the roster other than the given one. */
  predicate AnyOther(ps: seq<Pawn>, member: Pawn) {
    exists i :: 0 <= i < |ps| && ps[i] != member
  }

  /** Once a member is taken off the roster, someone other than it is
      left exactly when anyone is. */
  lemma AnyOtherLeft(ps: seq<Pawn>, member: Pawn)
    ensures AnyOther(Without(ps, member), member) <==> Without(ps, member) != []
  {
    var rest := Without(ps, member);
    if rest != [] {
      WithoutMember(ps, member, rest[0]);
    }
  }

  lemma MemberDiedSteps(h: Holdings, member: Pawn, outpostSpawned: bool, r: Holdings)
    requires r.occupants == Without(h.occupants, member)
    requires r.inventory == h.inventory + [CorpseOf(member)]
    requires r.log == (if outpostSpawned then h.log else h.log + [ErrorLogged(DiedUnspawned)])
                      + (if r.occupants == [] then [AbandonedLetter] else [])
    requires r.abandoned == (h.abandoned || r.occupants == [])
    ensures MemberDied(h, member, true, outpostSpawned) == r
  {
  }

  /** The occupant step of a satisfyable occupant, spelled out step by
      step. */
  lemma OccupantStepSteps(h: Holdings, v: PawnView, ctx: NeedsContext, h1: Holdings, h2: Holdings, r: Holdings)
    requires Satisfyable(v) && v.pawn in h.occupants
    requires h1 == h.(log := h.log + [Aged(v.pawn)] + RestEffects(v.pawn, ctx.hour))
    requires h2 == if v.pawn in ctx.kills then MemberDied(h1, v.pawn, true, ctx.outpostSpawned) else h1
    requires r == h2.(log := h2.log + FoodEffects(v, ctx))
    ensures OccupantStep(h, v, ctx) == r
  {
  }

  /** What the needs scheduler reads of the docked caravan's members; no
      caravan, or one on the move, has none. */
  function Visitors(tileCaravan: Caravan?): (vs: seq<PawnView>)
    reads tileCaravan, if tileCaravan == null then {} else set i | 0 <= i < |tileCaravan.pawns| :: tileCaravan.pawns[i]
    ensures !HasDockedCaravan(tileCaravan) ==> vs == []
    ensures HasDockedCaravan(tileCaravan) ==> vs == ViewsOf(tileCaravan.pawns)
  {
    if HasDockedCaravan(tileCaravan) then ViewsOf(tileCaravan.pawns) else []
  }

  /** The holdings after the tracker half of a tick: emptied when the
      caravan formed, then, when the outpost delivered a production, the
      goods the capable occupants left make, delivered. */
  ghost function AfterTrackers(h: Holdings, ext: OutpostExtension, formed: bool, delivered: bool, w: World): Holdings
    requires WellFormed(ext)
  {
    var h1 := if formed then h.(occupants := [], inventory := []) else h;
    if delivered
    then Delivered(h1, ProducedThings(OrEmpty(ext.resultOptions), CapablePawns(ext, h1.occupants), w.productionMultiplier),
                   DeliveryRoute(w.deliveryMapExists, w.deliveryMethod, w.podsResearched))
    else h1
  }

  /** What the host world tells an outpost on one tick: whether the
      outpost has a map, the local hour, the game tick, the pawns the
      host's health tick kills, the global multipliers, whether a delivery
      map exists, the delivery method, and whether transport pods are
      researched. */
  datatype World = World(
    hasMap: bool,
    hour: int,
    ticksGame: int,
    kills: set<Pawn>,
    timeMultiplier: real,
    productionMultiplier: real,
    deliveryMapExists: bool,
    deliveryMethod: DeliveryMethod,
    podsResearched: bool)

  class Outpost {
    const defName: string
    const tile: int
    var name: string
    /** The configuration; None when the outpost's def carries none. */
    var ext: Option<OutpostExtension>
    var inventory: seq<Thing>
    var occupants: seq<Pawn>
    var costPaid: bool
    var skillsDirty: bool
    var totalSkills: map<SkillDef, int>
    var spawned: bool
    var destroyed: bool
    var abandoned: bool
    /** Effects on the host game, in the order they happened. */
    var log: seq<Effect>
    const packingTracker: PackingTracker
    const productionTracker: ProductionTracker
    /** Set right after construction, once the outpost exists to own it. */
    var raidTracker: RaidTracker?

    /** A new outpost with empty containers and idle trackers. */
    constructor(defName: string, tile: int, ext: Option<OutpostExtension>)
      requires ext.Some? ==> WellFormed(ext.value)
      ensures Valid()
      ensures this.defName == defName && this.tile == tile && this.ext == ext
      ensures inventory == [] && occupants == [] && log == []
      ensures !costPaid && skillsDirty && totalSkills == map[]
      ensures !spawned && !destroyed && !abandoned
      ensures fresh(packingTracker) && fresh(productionTracker)
      ensures packingTracker.ticksTillPacked == -1 && productionTracker.ticksTillProduction == 0
      ensures raidTracker != null && fresh(raidTracker) && raidTracker.parent == this
    {
      this.defName := defName;
      this.tile := tile;
      name := "";
      this.ext := ext;
      inventory := [];
      occupants := [];
      costPaid := false;
      skillsDirty := true;
      totalSkills := map[];
      spawned := false;
      destroyed := false;
      abandoned := false;
      log := [];
      packingTracker := new PackingTracker();
      productionTracker := new ProductionTracker();
      raidTracker := null;
      new;
      raidTracker := new RaidTracker(this);
    }

    /** The roster has no repeats, and every produced thing stacks. */
    predicate Valid()
      reads this
    {
      NoDups(occupants) && (ext.Some? ==> WellFormed(ext.value))
    }

    /** The part of the outpost that its operations change. */
    function State(): Holdings
      reads this
    {
      Holdings(occupants, inventory, log, abandoned)
    }

    /** The configured range, or the invalid range without a configuration. */
    function Range(): (r: int)
      reads this
      ensures ext.None? ==> r == InvalidRange
      ensures ext.Some? ==> r == ext.value.range
    {
      match ext
      case None => InvalidRange
      case Some(e) => e.range
    }

    predicate IsRangeValid()
      reads this
      ensures IsRangeValid() <==> ext.Some? && ext.value.range != InvalidRange
    {
      Range() != InvalidRange
    }

    /** The food the outpost hands out: the configured food, or a simple
        meal when there is no configuration or it names none. */
    function ProvidedFood(): (f: ThingDef)
      reads this
      ensures ext.Some? && ext.value.providedFood.Some? ==> f == ext.value.providedFood.value
      ensures ext.None? || ext.value.providedFood.None? ==> f == MealSimple
    {
      match ext
      case None => MealSimple
      case Some(e) => e.providedFood.GetOr(MealSimple)
    }

    /** The configured production period, None without a configuration. */
    function ConfiguredPeriod(): (r: Option<int>)
      reads this
      ensures r.Some? <==> ext.Some?
      ensures r.Some? ==> r.value == ext.value.ticksPerProduction
    {
      match ext
      case None => None
      case Some(e) => Some(e.ticksPerProduction)
    }

    function ConfiguredPackTime(): (r: Option<int>)
      reads this
      ensures r.Some? <==> ext.Some?
      ensures r.Some? ==> r.value == ext.value.ticksToPack
    {
      match ext
      case None => None
      case Some(e) => Some(e.ticksToPack)
    }

    /** What the needs scheduler works with on a tick. */
    function Context(hour: int, ticksGame: int, kills: set<Pawn>): (ctx: NeedsContext)
      reads this
      ensures ctx.food == ProvidedFood() && ctx.outpostSpawned == spawned
      ensures ctx.hour == hour && ctx.ticksGame == ticksGame && ctx.kills == kills
    {
      NeedsContext(hour, ticksGame, kills, ProvidedFood(), spawned)
    }

    /** Puts a stack into the inventory. */
    method AddItem(t: Thing)
      modifies this`inventory
      ensures inventory == old(inventory) + [t]
    {
      inventory := inventory + [t];
    }

    method AddItems(things: seq<Thing>)
      modifies this`inventory
      ensures inventory == old(inventory) + things
    {
      inventory := inventory + things;
    }

    /** Takes a stack out of the inventory; a stack that is not there is
        an error, and nothing is taken. */
    method TakeItem(t: Thing) returns (r: Option<Thing>)
      modifies this`inventory, this`log
      ensures t in old(inventory) ==> r == Some(t) && inventory == RemoveFirst(old(inventory), t) && log == old(log)
      ensures t !in old(inventory) ==> r.None? && inventory == old(inventory) && log == old(log) + [ErrorLogged(TakeMissing)]
    {
      if t in inventory {
        inventory := RemoveFirst(inventory, t);
        r := Some(t);
      } else {
        log := log + [ErrorLogged(TakeMissing)];
        r := None;
      }
    }

    /** When the outpost is placed, the production countdown starts. */
    method PostAdd(timeMultiplier: real)
      modifies productionTracker
      ensures productionTracker.ticksTillProduction == Scale(TicksPerProduction(ConfiguredPeriod()), timeMultiplier)
    {
      productionTracker.PostAdd(TicksPerProduction(ConfiguredPeriod()), timeMultiplier);
    }

    /** Runs one of the packing commands the outpost offers. Starting
        shares the packing time among the occupants, so it needs one. */
    method RunPackCommand(cmd: PackCommand, devMode: bool, timeMultiplier: real)
      requires cmd in PackCommands(packingTracker.Packing(), devMode)
      requires cmd == StartPack ==> |occupants| > 0
      modifies packingTracker
      ensures cmd == StopPack ==> old(packingTracker.Packing()) && !packingTracker.Packing()
      ensures cmd == StartPack ==>
                !old(packingTracker.Packing()) &&
                packingTracker.ticksTillPacked == Scale(TicksToPack(ConfiguredPackTime(), |occupants|), timeMultiplier)
      ensures cmd == DevPackNow ==> devMode && old(packingTracker.Packing()) && ConvertsOn(packingTracker.ticksTillPacked)
    {
      var ticks := if cmd == StartPack then TicksToPack(ConfiguredPackTime(), |occupants|) else 0;
      packingTracker.Apply(cmd, ticks, timeMultiplier);
    }

    /** Delivers goods: without a map they are kept with a warning;
        otherwise they go by the delivery method, and a letter lists the
        stacks that stand alone and totals the others per definition. */
    method Deliver(things: seq<Thing>, mapExists: bool, how: DeliveryMethod, podsResearched: bool)
      modifies this`inventory, this`log
      ensures State() == Delivered(old(State()), things, DeliveryRoute(mapExists, how, podsResearched))
    {
      if !mapExists {
        log := log + [WarningLogged(NullMapWarning)];
        inventory := inventory + things;
        return;
      }
      match how {
        case Teleport => log := log + [Shipped(Teleported, things)];
        case PackAnimal => log := log + [Shipped(ByPackAnimals, things)];
        case Store => inventory := inventory + things;
        case ForcePods => log := log + [Shipped(ByPods, things)];
        case PackOrPods =>
          if podsResearched {
            log := log + [Shipped(ByPods, things)];
          } else {
            log := log + [Shipped(ByPackAnimals, things)];
          }
      }
      var singles, counts := BuildManifest(things);
      log := log + [ItemsLetter(singles, counts)];
    }

    /** The delivery letter's lists: the stacks that stand alone, in order,
        and the totals per definition of the others. */
    method BuildManifest(things: seq<Thing>) returns (singles: seq<Thing>, counts: seq<Cost>)
      ensures (singles, counts) == Manifest(things)
    {
      singles, counts := [], [];
      for i := 0 to |things|
        invariant (singles, counts) == Manifest(things[..i])
      {
        var item := things[i];
        ManifestSnoc(things, i);
        if IsSingle(item) {
          singles := singles + [item];
        } else {
          ghost var next := AddToCounts(counts, item);
          var found := FindDef(counts, item.def);
          var at: nat;
          if found.None? {
            counts := counts + [Cost(item.def, 0)];
            at := |counts| - 1;
          } else {
            at := found.value;
          }
          counts := counts[at := Cost(counts[at].def, counts[at].count + item.stackCount)];
          assert counts == next;
        }
      }
      assert things[..|things|] == things;
    }

    /** One production cycle: the configuration's result options worked by
        the capable occupants, delivered. The options are enumerated without
        a null guard, so a configuration that leaves them out throws before
        anything is made or delivered. */
    method Produce(productionMultiplier: real, mapExists: bool, how: DeliveryMethod, podsResearched: bool)
      returns (thrown: Option<string>)
      requires Valid() && ext.Some?
      modifies this`inventory, this`log
      ensures thrown.Some? <==> ext.value.resultOptions.None?
      ensures thrown.Some? ==> thrown == Some("ArgumentNullException") && State() == old(State())
      ensures thrown.None? ==>
                State() == Delivered(old(State()),
                  ProducedThings(OrEmpty(ext.value.resultOptions), CapablePawns(ext.value, occupants), productionMultiplier),
                  DeliveryRoute(mapExists, how, podsResearched))
    {
      if ext.value.resultOptions.None? {
        return Some("ArgumentNullException");
      }
      assert OrEmpty(ext.value.resultOptions) == ext.value.resultOptions.value;
      var things := ProducedThings(ext.value.resultOptions.value, CapablePawns(ext.value, occupants), productionMultiplier);
      Deliver(things, mapExists, how, podsResearched);
      thrown := None;
    }
 
    /** Moves the pawns found in the inventory to the roster, in order: each
        leaves the inventory, and joins the roster when the configuration
        accepts it; a rejected pawn is dropped. The host reaches this again
        from inside admission; those nested passes end in the same roster
        as this single pass. */
    method RecachePawnTraits()
      requires ext.Some? || PawnsIn(inventory) == []
      modifies this`inventory, this`occupants, this`skillsDirty
      ensures skillsDirty
      ensures inventory == NonPawnThings(old(inventory))
      ensures ext.Some? ==> occupants == Admit(ext.value, old(occupants), PawnsIn(old(inventory)))
      ensures ext.None? ==> occupants == old(occupants)
    {
      skillsDirty := true;
      var pawns := PawnsIn(inventory);
      var inv, roster := inventory, occupants;
      for i := 0 to |pawns|
        invariant PawnsIn(inv) == pawns[i..]
        invariant NonPawnThings(inv) == NonPawnThings(old(inventory))
        invariant ext.Some? ==> roster == Admit(ext.value, old(occupants), pawns[..i])
        invariant ext.None? ==> roster == old(occupants)
        modifies {}
      {
        var p := pawns[i];
        DropFirstPawnSpec(inv);
        inv := DropFirstPawn(inv);
        assert pawns[i..][1..] == pawns[i + 1..];
        AdmitStep(ext.value, old(occupants), pawns, i, roster);
        if CanAddPawn(ext.value, p).accepted {
          // The pawn leaves its holder, then joins if it is not there.
          roster := Without(roster, p);
          if p !in roster {
            roster := roster + [p];
          }
        }
      }
      NoPawnsLeft(inv);
      assert pawns[..|pawns|] == pawns;
      inventory, occupants := inv, roster;
    }

    /** Admits a pawn, arriving alone (caravan null) or from a caravan. A
        pawn the configuration rejects changes nothing. From a caravan: when
        no other humanlike pawn stays, the caravan's items and its other
        pawns move into the inventory, the construction cost, if unpaid, is
        taken out of it, and the caravan is destroyed. The pawn then leaves
        its place on the roster, if any, and joins at the end, and the
        pawns now in the inventory are admitted in turn. */
    method AddPawn(pawn: Pawn, caravan: Caravan?) returns (added: bool)
      requires Valid() && ext.Some?
      requires caravan != null ==> pawn in caravan.pawns
      modifies this`inventory, this`occupants, this`costPaid, this`skillsDirty, caravan
      ensures Valid()
      ensures added <==> CanAddPawn(ext.value, pawn).accepted
      ensures !added ==> inventory == old(inventory) && occupants == old(occupants) &&
                         costPaid == old(costPaid) && skillsDirty == old(skillsDirty)
      ensures !added && caravan != null ==> unchanged(caravan)
      ensures caravan != null ==> caravan.moving == old(caravan.moving)
      ensures added ==>
                var ab := if caravan == null then (old(inventory), old(costPaid))
                          else Absorb(old(inventory), old(caravan.items), Without(old(caravan.pawns), pawn),
                                      old(costPaid), OrEmpty(ext.value.costToMake));
                inventory == NonPawnThings(ab.0) && costPaid == ab.1 && skillsDirty &&
                occupants == Admit(ext.value, Without(old(occupants), pawn) + [pawn], PawnsIn(ab.0))
      ensures added ==> pawn in occupants
      ensures added && caravan != null ==>
                var others := Without(old(caravan.pawns), pawn);
                (AnyHumanlike(others) ==>
                   caravan.pawns == others && caravan.items == old(caravan.items) &&
                   caravan.destroyed == old(caravan.destroyed)) &&
                (!AnyHumanlike(others) ==> caravan.pawns == [] && caravan.items == [] && caravan.destroyed)
    {
      if !CanAddPawn(ext.value, pawn).accepted {
        return false;
      }
      if caravan != null {
        DockCaravan(pawn, caravan);
      }
      ghost var absorbed := inventory;
      Join(pawn);
      ghost var roster := occupants;
      assert pawn in roster;
      RecachePawnTraits();
      AdmitNoDups(ext.value, roster, PawnsIn(absorbed));
      AdmitMember(ext.value, roster, PawnsIn(absorbed), pawn);
      added := true;
    }
 
    /** A caravan hands over a pawn. When no other humanlike pawn stays,
        the caravan's items and its other pawns move into the inventory, the
        construction cost, if unpaid, is taken out of it, and the caravan is
        destroyed. */
    method DockCaravan(pawn: Pawn, caravan: Caravan)
      requires Valid() && ext.Some?
      modifies this`inventory, this`costPaid, caravan
      ensures Valid()
      ensures (inventory, costPaid)
           == Absorb(old(inventory), old(caravan.items), Without(old(caravan.pawns), pawn),
                     old(costPaid), OrEmpty(ext.value.costToMake))
      ensures caravan.moving == old(caravan.moving)
      ensures var others := Without(old(caravan.pawns), pawn);
              (AnyHumanlike(others) ==>
                 caravan.pawns == others && caravan.items == old(caravan.items) &&
                 caravan.destroyed == old(caravan.destroyed)) &&
              (!AnyHumanlike(others) ==> caravan.pawns == [] && caravan.items == [] && caravan.destroyed)
    {
      var others := Without(caravan.pawns, pawn);
      if !AnyHumanlike(others) {
        inventory := inventory + caravan.items;
        caravan.items := [];
      }
      caravan.pawns := others;
      if !AnyHumanlike(caravan.pawns) {
        assert caravan.AllThings() == PawnThings(others);
        inventory := inventory + caravan.AllThings();
        caravan.pawns := [];
        if !costPaid && |OrEmpty(ext.value.costToMake)| > 0 {
          var left;
          inventory, left := RemoveCosts(inventory, ext.value.costToMake.value);
          if left == [] {
            costPaid := true;
          }
        }
        caravan.destroyed := true;
      }
    }

    /** The pawn leaves its place on the roster, if any, and joins at the
        end. */
    method Join(pawn: Pawn)
      requires Valid()
      modifies this`occupants
      ensures occupants == Without(old(occupants), pawn) + [pawn]
      ensures Valid()
    {
      // The pawn leaves its holder, then joins if it is not there.
      occupants := Without(occupants, pawn);
      WithoutNoDups(old(occupants), pawn);
      WithoutMember(old(occupants), pawn, pawn);
      if pawn !in occupants {
        NoDupsSnoc(occupants, pawn);
        occupants := occupants + [pawn];
      }
    }

    /** Packs the outpost back into a caravan on its tile: the occupants,
        then every stack of the inventory (pawns as members, the rest as
        items), and the outpost is destroyed. */
    method ConvertToCaravan() returns (c: Caravan)
      requires Valid()
      modifies this`occupants, this`inventory, this`destroyed
      ensures Valid()
      ensures fresh(c) && !c.moving && !c.destroyed
      ensures c.pawns == old(occupants) + PawnsIn(old(inventory))
      ensures c.items == NonPawnThings(old(inventory))
      ensures occupants == [] && inventory == [] && destroyed
    {
      c := new Caravan(occupants, []);
      ghost var occ0 := occupants;
      ghost var inv0 := inventory;
      occupants := [];
      ghost var k := 0;
      while inventory != []
        invariant 0 <= k <= |inv0| && inventory == inv0[k..] && occupants == []
        invariant c.pawns == occ0 + PawnsIn(inv0[..k])
        invariant c.items == NonPawnThings(inv0[..k])
        invariant !c.moving && !c.destroyed
        decreases |inventory|
      {
        var t := inventory[0];
        UnpackStep(occ0, inv0, k);
        if t.kind.PawnKind? {
          c.pawns := c.pawns + [t.kind.pawn];
        } else {
          c.items := c.items + [t];
        }
        inventory := inventory[1..];
        k := k + 1;
      }
      assert inv0[..k] == inv0;
      destroyed := true;
    }

    /** The outpost is given up, and the player is told. */
    method Abandon()
      modifies this`log, this`abandoned
      ensures log == old(log) + [AbandonedLetter] && abandoned
    {
      log := log + [AbandonedLetter];
      abandoned := true;
    }

    /** A death reported to the outpost: see MemberDied. */
    method NotifyMemberDied(member: Pawn)
      requires Valid()
      modifies this`occupants, this`inventory, this`log, this`abandoned
      ensures Valid()
      ensures !member.dead ==> State() == MemberDied(old(State()), member, false, spawned)
      ensures member.dead ==> State() == MemberDied(old(State()), member, true, spawned)
    {
      if !member.dead {
        log := log + [ErrorLogged(AliveReportedDead)];
        return;
      }
      RecordDeath(member);
    }

    /** A dead member: off the roster, its corpse into the inventory, and
        the outpost abandoned when nobody else is left. */
    method RecordDeath(member: Pawn)
      requires Valid()
      modifies this`occupants, this`inventory, this`log, this`abandoned
      ensures Valid()
      ensures State() == MemberDied(old(State()), member, true, spawned)
    {
      ghost var h := State();
      var roster := Without(occupants, member);
      WithoutNoDups(occupants, member);
      AnyOtherLeft(occupants, member);
      var anyOther := AnyOther(roster, member);
      ghost var logged := if spawned then log else log + [ErrorLogged(DiedUnspawned)];
      MemberDiedSteps(h, member, spawned,
        Holdings(roster, inventory + [CorpseOf(member)],
                 logged + (if anyOther then [] else [AbandonedLetter]), abandoned || !anyOther));
      if !spawned {
        log := log + [ErrorLogged(DiedUnspawned)];
      }
      occupants := roster;
      inventory := inventory + [CorpseOf(member)];
      if !anyOther {
        Abandon();
      }
    }

    /** Housekeeping: drops destroyed and empty stacks. */
    method CheckNoDestroyedOrNoStack()
      requires Valid()
      modifies this`inventory
      ensures Valid()
      ensures inventory == Healthy(old(inventory))
    {
      var items := inventory;
      var kept: seq<Thing> := [];
      for i := 0 to |items|
        invariant kept == Healthy(items[..i])
      {
        assert items[..i + 1][..i] == items[..i];
        if !(items[i].destroyed || items[i].stackCount == 0) {
          kept := kept + [items[i]];
        }
      }
      assert items[..|items|] == items;
      inventory := kept;
    }

    /** The total level of the capable occupants in a skill. While the
        cache is marked dirty (and nothing ever clears the mark), every
        listed skill definition is recomputed, each as the total of the
        skill asked for; the answer is then read from the cache, and a skill
        the cache lacks has no answer. */
    method TotalSkill(skill: SkillDef, allSkillDefs: seq<SkillDef>) returns (r: Option<int>)
      requires ext.Some?
      modifies this`totalSkills
      ensures skillsDirty ==> totalSkills == RecountedTotals(old(totalSkills), allSkillDefs,
                                GetCumulativeSkill(CapablePawns(ext.value, occupants), skill))
      ensures !skillsDirty ==> totalSkills == old(totalSkills)
      ensures r.Some? <==> skill in totalSkills
      ensures r.Some? ==> r.value == totalSkills[skill]
      ensures skillsDirty && skill in allSkillDefs ==>
                r == Some(GetCumulativeSkill(CapablePawns(ext.value, occupants), skill))
    {
      if skillsDirty {
        ghost var total := GetCumulativeSkill(CapablePawns(ext.value, occupants), skill);
        for j := 0 to |allSkillDefs|
          invariant totalSkills == RecountedTotals(old(totalSkills), allSkillDefs[..j], total)
          modifies this`totalSkills
        {
          RecountedSnoc(old(totalSkills), allSkillDefs, j, total);
          totalSkills := totalSkills[allSkillDefs[j] := GetCumulativeSkill(CapablePawns(ext.value, occupants), skill)];
        }
        assert allSkillDefs[..|allSkillDefs|] == allSkillDefs;
      }
      r := if skill in totalSkills then Some(totalSkills[skill]) else None;
    }
 
    /** The food step for one pawn: on the pawn's interval tick, a pawn
        that wants to eat is fed the outpost's food when that food is a
        nutrition-giving ingestible people can eat and the pawn's race can
        eat it. */
    method SatisfyFoodNeed(pawn: Pawn, ctx: NeedsContext)
      requires ctx.food == ProvidedFood()
      modifies this`log
      ensures log == old(log) + FoodEffects(ViewOf(pawn), ctx)
    {
      if IsHashIntervalTick(ctx.ticksGame, pawn.hashOffset, FoodInterval) {
        var food := ProvidedFood();
        if pawn.foodLevel.Some? && pawn.foodLevel.value <= pawn.wantEatLevel &&
           food.nutritionGivingIngestible && food.humanEdible {
          if food in pawn.canEverEat {
            log := log + [Fed(pawn, food)];
          }
        }
      }
    }

    /** Ageing, then resting during rest time. */
    method AgeAndRest(pawn: Pawn, hour: int)
      modifies this`log
      ensures log == old(log) + [Aged(pawn)] + RestEffects(pawn, hour)
    {
      log := log + [Aged(pawn)];
      if IsPawnRestTime(hour) {
        log := log + [Rested(pawn, OutpostRestEffectiveness)];
      }
    }

    /** The occupant step for one pawn: see OccupantStep. The host's health
        tick is not modelled; the pawns it kills are given. */
    method SatisfyOccupant(pawn: Pawn, ctx: NeedsContext)
      requires Valid() && ctx.food == ProvidedFood() && ctx.outpostSpawned == spawned
      modifies this`occupants, this`inventory, this`log, this`abandoned, pawn`dead
      ensures Valid()
      ensures State() == OccupantStep(old(State()), old(ViewOf(pawn)), ctx)
    {
      ghost var h := State();
      ghost var v := ViewOf(pawn);
      if !IsPawnSatisfyable(pawn) || !IsPawnOccupant(occupants, pawn) {
        return;
      }
      AgeAndRest(pawn, ctx.hour);
      ghost var h1 := State();
      if pawn in ctx.kills {
        pawn.dead := true;
      }
      if pawn.dead {
        NotifyMemberDied(pawn);
      }
      ghost var h2 := State();
      assert ViewOf(pawn) == v.(dead := pawn.dead);
      SatisfyFoodNeed(pawn, ctx);
      OccupantStepSteps(h, v, ctx, h1, h2, State());
    }

    /** The occupant pass: the step for every pawn on the roster when the
        pass begins, in order. */
    method SatisfyOccupantNeeds(ctx: NeedsContext)
      requires Valid() && ctx.food == ProvidedFood() && ctx.outpostSpawned == spawned
      modifies this`occupants, this`inventory, this`log, this`abandoned, set p | p in occupants
      ensures State() == OccupantPass(old(State()), old(ViewsOf(occupants)), ctx)
      ensures Valid()
    {
      var pawns := occupants;
      ghost var h0 := State();
      ghost var vs := ViewsOf(pawns);
      for i := 0 to |pawns|
        invariant State() == OccupantPass(h0, vs[..i], ctx)
        invariant forall j :: i <= j < |pawns| ==> ViewOf(pawns[j]) == vs[j]
        invariant Valid()
      {
        assert vs[..i + 1][..i] == vs[..i];
        SatisfyOccupant(pawns[i], ctx);
      }
      assert vs[..|pawns|] == vs;
    }

    /** The visitor step: a satisfyable member of the docked caravan is
        only fed (a resting caravan already rests its pawns). */
    method SatisfyVisitor(pawn: Pawn, tileCaravan: Caravan?, ctx: NeedsContext)
      requires ctx.food == ProvidedFood()
      modifies this`log
      ensures log == old(log) + (if IsPawnSatisfyable(pawn) && IsPawnVisitor(tileCaravan, pawn)
                                 then FoodEffects(ViewOf(pawn), ctx) else [])
    {
      if !IsPawnSatisfyable(pawn) || !IsPawnVisitor(tileCaravan, pawn) {
        return;
      }
      SatisfyFoodNeed(pawn, ctx);
    }

    /** The visitor pass over the docked caravan's members, in order. */
    method SatisfyVisitorNeeds(tileCaravan: Caravan?, ctx: NeedsContext)
      requires ctx.food == ProvidedFood()
      modifies this`log
      ensures State() == VisitorPass(old(State()), Visitors(tileCaravan), ctx)
    {
      var docked := TryGetDockedCaravan(tileCaravan);
      if docked.0 {
        var members := docked.1.pawns;
        ghost var h0 := State();
        ghost var vs := ViewsOf(members);
        for i := 0 to |members|
          invariant State() == VisitorPass(h0, vs[..i], ctx)
        {
          assert vs[..i + 1][..i] == vs[..i];
          SatisfyVisitor(members[i], tileCaravan, ctx);
        }
        assert vs[..|members|] == vs;
      }
    }

    /** One tick of the needs scheduler: see NeedsTick. */
    method TickNeeds(tileCaravan: Caravan?, hasMap: bool, ctx: NeedsContext)
      requires Valid() && ctx.food == ProvidedFood() && ctx.outpostSpawned == spawned
      modifies this`occupants, this`inventory, this`log, this`abandoned, set p | p in occupants
      ensures State() == NeedsTick(old(State()), old(Visitors(tileCaravan)), old(ViewsOf(occupants)), hasMap, ctx)
      ensures Valid()
    {
      ghost var views := ViewsOf(occupants);
      ghost var h0 := State();
      SatisfyVisitorNeeds(tileCaravan, ctx);
      assert ViewsOf(occupants) == views && Valid();
      ghost var h1 := State();
      if !hasMap {
        SatisfyOccupantNeeds(ctx);
      }
      assert State() == if hasMap then h1 else OccupantPass(h1, views, ctx);
    }
 
    /** The tracker half of a world tick: the packing countdown (forming
        the caravan when it runs out), then the production countdown, gated
        on the packing state the packing tick left, producing when it runs
        out. */
    method TickTrackers(w: World) returns (formed: Caravan?, produced: bool, thrown: Option<string>)
      requires Valid() && ext.Some?
      modifies this`occupants, this`inventory, this`log, this`destroyed, packingTracker, productionTracker
      ensures packingTracker.ticksTillPacked == PackStep(old(packingTracker.ticksTillPacked))
      ensures formed != null <==> ConvertsOn(old(packingTracker.ticksTillPacked))
      ensures formed != null ==>
                fresh(formed) && formed.pawns == old(occupants) + PawnsIn(old(inventory)) &&
                formed.items == NonPawnThings(old(inventory))
      ensures destroyed == (old(destroyed) || formed != null)
      ensures (productionTracker.ticksTillProduction, produced)
           == ProductionStep(old(productionTracker.ticksTillProduction),
                             packingTracker.ticksTillPacked <= 0,
                             Scale(TicksPerProduction(ConfiguredPeriod()), w.timeMultiplier))
      ensures occupants == if formed != null then [] else old(occupants)
      ensures thrown.Some? <==> produced && ext.value.resultOptions.None?
      ensures State() == AfterTrackers(old(State()), ext.value, formed != null, produced && thrown.None?, w)
      ensures Valid()
    {
      ghost var h0 := State();
      var convert := packingTracker.Tick();
      formed := null;
      if convert {
        formed := ConvertToCaravan();
      }
      assert State() == if formed != null then h0.(occupants := [], inventory := []) else h0;
      produced := productionTracker.Tick(Some(packingTracker.Packing()), TicksPerProduction(ConfiguredPeriod()), w.timeMultiplier);
      thrown := None;
      if produced {
        thrown := Produce(w.productionMultiplier, w.deliveryMapExists, w.deliveryMethod, w.podsResearched);
      }
    }

    /** One world tick: the trackers, then the needs scheduler. The caravan
        on the tile is a world query, passed in. A production that throws
        leaves the tick there, so the needs scheduler does not run. */
    method Tick(w: World, tileCaravan: Caravan?) returns (formed: Caravan?, produced: bool, thrown: Option<string>)
      requires Valid() && ext.Some?
      modifies this`occupants, this`inventory, this`log, this`abandoned, this`destroyed
      modifies packingTracker, productionTracker, set p | p in occupants
      ensures packingTracker.ticksTillPacked == PackStep(old(packingTracker.ticksTillPacked))
      ensures formed != null <==> ConvertsOn(old(packingTracker.ticksTillPacked))
      ensures formed != null ==>
                fresh(formed) && formed.pawns == old(occupants) + PawnsIn(old(inventory)) &&
                formed.items == NonPawnThings(old(inventory))
      ensures destroyed == (old(destroyed) || formed != null)
      ensures (productionTracker.ticksTillProduction, produced)
           == ProductionStep(old(productionTracker.ticksTillProduction),
                             packingTracker.ticksTillPacked <= 0,
                             Scale(TicksPerProduction(ConfiguredPeriod()), w.timeMultiplier))
      ensures thrown.Some? <==> produced && ext.value.resultOptions.None?
      ensures thrown.Some? ==> State() == AfterTrackers(old(State()), ext.value, formed != null, false, w)
      ensures thrown.None? ==>
                State() == NeedsTick(AfterTrackers(old(State()), ext.value, formed != null, produced, w),
                                     old(Visitors(tileCaravan)), if formed != null then [] else old(ViewsOf(occupants)),
                                     w.hasMap, Context(w.hour, w.ticksGame, w.kills))
      ensures Valid()
    {
      ghost var vs := Visitors(tileCaravan);
      ghost var os := ViewsOf(occupants);
      formed, produced, thrown := TickTrackers(w);
      assert Visitors(tileCaravan) == vs;
      assert ViewsOf(occupants) == if formed != null then [] else os;
      ghost var packed := packingTracker.ticksTillPacked;
      ghost var untilProduction := productionTracker.ticksTillProduction;
      ghost var caravanPawns := if formed != null then formed.pawns else [];
      ghost var caravanItems := if formed != null then formed.items else [];
      if thrown.None? {
        TickNeeds(tileCaravan, w.hasMap, Context(w.hour, w.ticksGame, w.kills));
      }
      assert packingTracker.ticksTillPacked == packed;
      assert productionTracker.ticksTillProduction == untilProduction;
      assert formed != null ==> formed.pawns == caravanPawns && formed.items == caravanItems;
    }
  }
}
