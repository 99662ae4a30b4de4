/** The host game's entities as far as the outpost engine touches them:
    thing definitions, stacks of things, pawns and caravans. */
module Things {
  import opened Common

  /** Skills, biomes and history events are identified by their def names. */
  type SkillDef = string
  type BiomeDef = string
  type HistoryEventDef = string

  datatype ThingDef = ThingDef(
    defName: string,
    displayLabel: string,
    stackLimit: int,
    madeFromStuff: bool,
    useHitPoints: bool,
    maxHitPoints: int,
    hasQuality: bool,
    nutritionGivingIngestible: bool,
    humanEdible: bool)

  /** The food an outpost hands out when its extension names none. */
  const MealSimple: ThingDef :=
    ThingDef("MealSimple", "simple meal", 10, false, true, 50, false, true, true)

  datatype SkillRecord = SkillRecord(level: int, totallyDisabled: bool)

  /** A pawn is referred to by identity; the engine only flips the fields
      declared `var` (the host's health and needs code does the rest). */
  class Pawn {
    const humanlike: bool
    /** None for pawns without a skill tracker (animals). */
    const skills: Option<map<SkillDef, SkillRecord>>
    const raceDef: ThingDef
    const corpseDef: ThingDef
    const hashOffset: int
    /** History events this pawn's ideology does not let it take part in. */
    const ideoForbids: set<HistoryEventDef>
    /** The food need level at or below which the pawn wants to eat. */
    const wantEatLevel: real
    const canEverEat: set<ThingDef>
    var dead: bool
    var spawned: bool
    /** None when the pawn has no food need. */
    var foodLevel: Option<real>

    constructor(humanlike: bool, skills: Option<map<SkillDef, SkillRecord>>, raceDef: ThingDef,
                corpseDef: ThingDef, hashOffset: int, ideoForbids: set<HistoryEventDef>,
                wantEatLevel: real, canEverEat: set<ThingDef>, foodLevel: Option<real>)
      ensures this.humanlike == humanlike && this.skills == skills && this.raceDef == raceDef
      ensures this.corpseDef == corpseDef && this.hashOffset == hashOffset
      ensures this.ideoForbids == ideoForbids && this.wantEatLevel == wantEatLevel
      ensures this.canEverEat == canEverEat && this.foodLevel == foodLevel
      ensures !dead && !spawned
    {
      this.humanlike := humanlike;
      this.skills := skills;
      this.raceDef := raceDef;
      this.corpseDef := corpseDef;
      this.hashOffset := hashOffset;
      this.ideoForbids := ideoForbids;
      this.wantEatLevel := wantEatLevel;
      this.canEverEat := canEverEat;
      this.foodLevel := foodLevel;
      dead := false;
      spawned := false;
    }
  }

  /** What a stack is: a plain item, a pawn, or a pawn's corpse. */
  datatype Kind = ItemKind | PawnKind(pawn: Pawn) | CorpseKind(pawn: Pawn)

  /** A stack of things as the engine sees it. */
  datatype Thing = Thing(
    def: ThingDef,
    stackCount: int,
    hitPoints: int,
    destroyed: bool,
    kind: Kind)

  function PawnThing(p: Pawn): (t: Thing)
    ensures t.kind == PawnKind(p) && t.stackCount == 1
  {
    Thing(p.raceDef, 1, 0, false, PawnKind(p))
  }

  function CorpseOf(p: Pawn): (t: Thing)
    ensures t.kind == CorpseKind(p) && t.stackCount == 1
  {
    Thing(p.corpseDef, 1, p.corpseDef.maxHitPoints, false, CorpseKind(p))
  }

  datatype Cost = Cost(def: ThingDef, count: int)

  // ---------------------------------------------------------------------
  // Sequences of things and pawns.

  /** Total number of units held in a list of stacks. */
  function TotalCount(s: seq<Thing>): int {
    if s == [] then 0 else s[0].stackCount + TotalCount(s[1..])
  }

  /** Number of units of one def held in a list of stacks. */
  function CountOfDef(s: seq<Thing>, d: ThingDef): int {
    if s == [] then 0
    else (if s[0].def == d then s[0].stackCount else 0) + CountOfDef(s[1..], d)
  }

  lemma {:induction false} TotalCountAppend(a: seq<Thing>, b: seq<Thing>)
    ensures TotalCount(a + b) == TotalCount(a) + TotalCount(b)
  {
    if a == [] {
      assert a + b == b;
    } else {
      assert (a + b)[0] == a[0] && (a + b)[1..] == a[1..] + b;
      TotalCountAppend(a[1..], b);
    }
  }

  lemma {:induction false} CountOfDefAppend(a: seq<Thing>, b: seq<Thing>, d: ThingDef)
    ensures CountOfDef(a + b, d) == CountOfDef(a, d) + CountOfDef(b, d)
  {
    if a == [] {
      assert a + b == b;
    } else {
      assert (a + b)[0] == a[0] && (a + b)[1..] == a[1..] + b;
      CountOfDefAppend(a[1..], b, d);
    }
  }

  function PawnThings(ps: seq<Pawn>): (s: seq<Thing>)
    ensures |s| == |ps|
    ensures forall i :: 0 <= i < |ps| ==> s[i] == PawnThing(ps[i])
  {
    if ps == [] then [] else [PawnThing(ps[0])] + PawnThings(ps[1..])
  }

  /** The pawns held as things in a list, in order. */
  function PawnsIn(s: seq<Thing>): (ps: seq<Pawn>)
    ensures |ps| <= |s|
  {
    if s == [] then []
    else (if s[0].kind.PawnKind? then [s[0].kind.pawn] else []) + PawnsIn(s[1..])
  }

  /** The stacks in a list that are not pawns, in order. */
  function NonPawnThings(s: seq<Thing>): (r: seq<Thing>)
    ensures |r| <= |s|
    ensures forall i :: 0 <= i < |r| ==> r[i] in s && !r[i].kind.PawnKind?
    ensures forall i :: 0 <= i < |s| && !s[i].kind.PawnKind? ==> s[i] in r
  {
    if s == [] then []
    else (if s[0].kind.PawnKind? then [] else [s[0]]) + NonPawnThings(s[1..])
  }

  lemma {:induction false} NonPawnThingsAppend(a: seq<Thing>, b: seq<Thing>)
    ensures NonPawnThings(a + b) == NonPawnThings(a) + NonPawnThings(b)
  {
    if a == [] {
      assert a + b == b;
    } else {
      assert (a + b)[0] == a[0] && (a + b)[1..] == a[1..] + b;
      NonPawnThingsAppend(a[1..], b);
    }
  }

  lemma {:induction false} PawnsInAppend(a: seq<Thing>, b: seq<Thing>)
    ensures PawnsIn(a + b) == PawnsIn(a) + PawnsIn(b)
  {
    if a == [] {
      assert a + b == b;
    } else {
      var head := if a[0].kind.PawnKind? then [a[0].kind.pawn] else [];
      assert (a + b)[0] == a[0] && (a + b)[1..] == a[1..] + b;
      assert PawnsIn(a + b) == head + PawnsIn(a[1..] + b);
      PawnsInAppend(a[1..], b);
      assert PawnsIn(a) == head + PawnsIn(a[1..]);
    }
  }

  /** The list without every occurrence of one pawn. */
  function Without(ps: seq<Pawn>, p: Pawn): (r: seq<Pawn>)
    ensures |r| <= |ps|
    ensures forall i :: 0 <= i < |r| ==> r[i] in ps && r[i] != p
    ensures forall i :: 0 <= i < |ps| && ps[i] != p ==> ps[i] in r
  {
    if ps == [] then []
    else (if ps[0] == p then [] else [ps[0]]) + Without(ps[1..], p)
  }

  predicate NoDups<T(==)>(s: seq<T>) {
    forall i, j :: 0 <= i < j < |s| ==> s[i] != s[j]
  }

  predicate AnyHumanlike(ps: seq<Pawn>) {
    exists i :: 0 <= i < |ps| && ps[i].humanlike
  }

  /** A caravan travelling the world map. Items are held in one flat list;
      which member carries which item is not modelled. */
  class Caravan {
    var pawns: seq<Pawn>
    var items: seq<Thing>
    var moving: bool
    var destroyed: bool

    constructor(pawns: seq<Pawn>, items: seq<Thing>)
      ensures this.pawns == pawns && this.items == items
      ensures !moving && !destroyed
    {
      this.pawns := pawns;
      this.items := items;
      moving := false;
      destroyed := false;
    }

    /** Everything the caravan holds: its members, then its items. */
    function AllThings(): seq<Thing>
      reads this
    {
      PawnThings(pawns) + items
    }

    predicate ContainsPawn(p: Pawn)
      reads this
    {
      p in pawns
    }
  }
}
