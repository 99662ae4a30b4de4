/** Configuration-level rules: which pawns an outpost accepts, whether a
    biome is allowed, whether the pawns are skilled enough, and the ordered
    checks that decide whether an outpost can be founded on a tile. */
module Rules {
  import opened Common
  import opened Things
  import opened Utils
  import opened Config

  /** Every minimum is met by the group's cumulative skill. */
  predicate SatisfiedBy(minSkills: seq<AmountBySkill>, pawns: seq<Pawn>)
    requires AllHaveSkills(pawns)
  {
    forall i :: 0 <= i < |minSkills| ==> GetCumulativeSkill(pawns, minSkills[i].skill) >= minSkills[i].count
  }

  /** Once a group satisfies its minimums, adding pawns whose levels are not
      negative keeps them satisfied. */
  lemma SatisfiedByMonotone(minSkills: seq<AmountBySkill>, pawns: seq<Pawn>, more: seq<Pawn>)
    requires AllHaveSkills(pawns) && AllHaveSkills(more)
    requires forall i, j :: 0 <= i < |more| && 0 <= j < |minSkills| ==> LevelOf(more[i], minSkills[j].skill) >= 0
    requires SatisfiedBy(minSkills, pawns)
    ensures AllHaveSkills(pawns + more)
    ensures SatisfiedBy(minSkills, pawns + more)
  {
    CumulativeSkillAppend(pawns, more, "");
    forall j | 0 <= j < |minSkills|
      ensures GetCumulativeSkill(pawns + more, minSkills[j].skill) >= minSkills[j].count
    {
      CumulativeSkillMonotone(pawns, more, minSkills[j].skill);
    }
  }

  const IdeoligionForbids: Reason := Reason("IdeoligionForbids", [])

  /** A pawn may join unless the outpost's history event is one its
      ideology forbids. */
  function CanAddPawn(ext: OutpostExtension, pawn: Pawn): (r: Report)
    ensures r.accepted <==> ext.event.None? || ext.event.value !in pawn.ideoForbids
    ensures r.accepted ==> r.reason.None?
    ensures !r.accepted ==> r.reason == Some(IdeoligionForbids)
  {
    if ext.event.Some? && ext.event.value in pawn.ideoForbids then Reject(IdeoligionForbids) else Accept
  }

  /** The length of the longest prefix of pawns that the outpost accepts. */
  function AcceptedPrefixLength(ext: OutpostExtension, pawns: seq<Pawn>): (k: nat)
    ensures k <= |pawns|
    ensures forall i :: 0 <= i < k ==> CanAddPawn(ext, pawns[i]).accepted
    ensures k < |pawns| ==> !CanAddPawn(ext, pawns[k]).accepted
  {
    if pawns == [] || !CanAddPawn(ext, pawns[0]).accepted then 0
    else 1 + AcceptedPrefixLength(ext, pawns[1..])
  }

  /** The compatible pawns and the report: the accepted pawns before the
      first rejected one, and that rejection (the default report if none). */
  function CompatiblePawns(ext: OutpostExtension, pawns: seq<Pawn>): (r: (seq<Pawn>, Report))
    ensures r.0 == pawns[..AcceptedPrefixLength(ext, pawns)]
    ensures r.1 == if AcceptedPrefixLength(ext, pawns) < |pawns|
                   then Reject(IdeoligionForbids) else DefaultReport
  {
    var k := AcceptedPrefixLength(ext, pawns);
    (pawns[..k], if k < |pawns| then CanAddPawn(ext, pawns[k]) else DefaultReport)
  }

  /** Walks the pawns, keeping accepted ones, and stops at the first rejection. */
  method GetCompatiblePawns(ext: OutpostExtension, pawns: seq<Pawn>) returns (list: seq<Pawn>, report: Report)
    ensures (list, report) == CompatiblePawns(ext, pawns)
  {
    list := [];
    report := DefaultReport;
    var i := 0;
    while i < |pawns|
      invariant 0 <= i <= |pawns|
      invariant list == pawns[..i]
      invariant forall j :: 0 <= j < i ==> CanAddPawn(ext, pawns[j]).accepted
      invariant report == DefaultReport
    {
      var r := CanAddPawn(ext, pawns[i]);
      if r.accepted {
        list := list + [pawns[i]];
      } else {
        report := r;
        break;
      }
      i := i + 1;
    }
  }

  /** A biome is invalid when it is disallowed, or when there is an allowed
      list that does not name it. Each list is asked whether it has any
      element without a null guard: a missing disallowed list throws, and so
      does a missing allowed list when the disallowed list has not already
      decided. */
  function IsTileBiomeInvalid(ext: OutpostExtension, biome: BiomeDef): (r: Outcome<bool>)
    ensures r.Throws? <==>
              ext.disallowedBiomes.None? || (biome !in OrEmpty(ext.disallowedBiomes) && ext.allowedBiomes.None?)
    ensures r.Throws? ==> r.exception == "ArgumentNullException"
    ensures r.Returns? ==>
              (r.value <==> biome in OrEmpty(ext.disallowedBiomes)
                            || (|OrEmpty(ext.allowedBiomes)| > 0 && biome !in OrEmpty(ext.allowedBiomes)))
  {
    if ext.disallowedBiomes.None? then Throws("ArgumentNullException")
    else if |ext.disallowedBiomes.value| > 0 && biome in ext.disallowedBiomes.value then Returns(true)
    else if ext.allowedBiomes.None? then Throws("ArgumentNullException")
    else Returns(|ext.allowedBiomes.value| > 0 && biome !in ext.allowedBiomes.value)
  }

  /** The tile form: a tile the world grid does not have is never invalid
      and consults no list. */
  function IsTileBiomeInvalidAt(ext: OutpostExtension, tileBiome: Option<BiomeDef>): (r: Outcome<bool>)
    ensures tileBiome.None? ==> r == Returns(false)
    ensures r.Throws? || r == Returns(true) ==> tileBiome.Some?
    ensures tileBiome.Some? ==>
              (r.Throws? <==> ext.disallowedBiomes.None?
                              || (tileBiome.value !in OrEmpty(ext.disallowedBiomes) && ext.allowedBiomes.None?))
    ensures tileBiome.Some? && r.Returns? ==>
              (r.value <==> tileBiome.value in OrEmpty(ext.disallowedBiomes) ||
                            (|OrEmpty(ext.allowedBiomes)| > 0 && tileBiome.value !in OrEmpty(ext.allowedBiomes)))
  {
    if tileBiome.None? then Returns(false) else IsTileBiomeInvalid(ext, tileBiome.value)
  }

  /** Outcome of the extension-level skill threshold check: whether it
      reports a failure, and the skill and level it names. */
  datatype ThresholdResult = ThresholdResult(failed: bool, skillLabel: string, minLevel: int)

  const NoThresholdFailure: ThresholdResult := ThresholdResult(false, "", 0)

  /** The first requirement whose pawn-level check accepts. */
  function FirstMet(required: seq<AmountBySkill>, pawns: seq<Pawn>): (r: Option<nat>)
    requires AllHaveSkills(pawns)
    ensures r.Some? ==> (r.value < |required|
      && CheckPawnsSkillThreshold(pawns, required[r.value].skill, required[r.value].count).accepted)
    ensures r.None? <==> forall i :: 0 <= i < |required| ==>
      !CheckPawnsSkillThreshold(pawns, required[i].skill, required[i].count).accepted
  {
    if required == [] then None
    else if CheckPawnsSkillThreshold(pawns, required[0].skill, required[0].count).accepted then Some(0)
    else
      var rest := FirstMet(required[1..], pawns);
      if rest.None? then None else Some(rest.value + 1)
  }

  /** Whether the extension-level skill check throws. The required-skill
      list is asked whether it has any element without a null guard, and
      each requirement sums the level of every pawn, so a missing list
      throws, and so does a pawn without skills (a pack animal) once there
      is a requirement. */
  predicate ThresholdThrows(ext: OutpostExtension, pawns: seq<Pawn>) {
    ext.requiredSkills.None? || (|ext.requiredSkills.value| > 0 && !AllHaveSkills(pawns))
  }

  /** The threshold check as the source writes it: the pawn-level report
      is used as a boolean, so the first requirement that IS met is
      reported as the failure. */
  function CheckCumulativeSkillThresholdAsWritten(ext: OutpostExtension, pawns: seq<Pawn>): (r: Outcome<ThresholdResult>)
    ensures r.Throws? <==> ThresholdThrows(ext, pawns)
    ensures ext.requiredSkills.None? ==> r == Throws("ArgumentNullException")
    ensures r.Returns? ==> OrEmpty(ext.requiredSkills) == [] || AllHaveSkills(pawns)
    ensures var required := OrEmpty(ext.requiredSkills);
      r.Returns? ==> (r.value.failed <==>
        exists i :: 0 <= i < |required|
                    && GetCumulativeSkill(pawns, required[i].skill) >= required[i].count)
  {
    if ext.requiredSkills.None? then Throws("ArgumentNullException")
    else
      var required := ext.requiredSkills.value;
      if |required| == 0 then Returns(NoThresholdFailure)
      else if !AllHaveSkills(pawns) then Throws("NullReferenceException")
      else
        var k := FirstMet(required, pawns);
        if k.None? then Returns(NoThresholdFailure)
        else Returns(ThresholdResult(true, required[k.value].skill, required[k.value].count))
  }

  /** The first requirement whose pawn-level check rejects. */
  function FirstUnmet(required: seq<AmountBySkill>, pawns: seq<Pawn>): (r: Option<nat>)
    requires AllHaveSkills(pawns)
    ensures r.Some? ==> (r.value < |required|
      && !CheckPawnsSkillThreshold(pawns, required[r.value].skill, required[r.value].count).accepted)
    ensures r.Some? ==> forall i :: 0 <= i < r.value ==>
      CheckPawnsSkillThreshold(pawns, required[i].skill, required[i].count).accepted
    ensures r.None? <==> SatisfiedBy(required, pawns)
  {
    if required == [] then None
    else if !CheckPawnsSkillThreshold(pawns, required[0].skill, required[0].count).accepted then Some(0)
    else
      var rest := FirstUnmet(required[1..], pawns);
      if rest.None? then None else Some(rest.value + 1)
  }

  /** The threshold check as intended: it fails on the first requirement
      the group does not reach, naming that skill and level. */
  function CheckCumulativeSkillThreshold(ext: OutpostExtension, pawns: seq<Pawn>): (r: Outcome<ThresholdResult>)
    ensures r.Throws? <==> ThresholdThrows(ext, pawns)
    ensures ext.requiredSkills.None? ==> r == Throws("ArgumentNullException")
    ensures r.Returns? ==> OrEmpty(ext.requiredSkills) == [] || AllHaveSkills(pawns)
    ensures var required := OrEmpty(ext.requiredSkills);
      r.Returns? ==> (!r.value.failed <==> required == [] || SatisfiedBy(required, pawns))
    ensures var required := OrEmpty(ext.requiredSkills);
      r.Returns? && r.value.failed ==>
        exists i :: 0 <= i < |required|
                    && GetCumulativeSkill(pawns, required[i].skill) < required[i].count
                    && r.value.skillLabel == required[i].skill && r.value.minLevel == required[i].count
  {
    if ext.requiredSkills.None? then Throws("ArgumentNullException")
    else
      var required := ext.requiredSkills.value;
      if |required| == 0 then Returns(NoThresholdFailure)
      else if !AllHaveSkills(pawns) then Throws("NullReferenceException")
      else
        var k := FirstUnmet(required, pawns);
        if k.None? then Returns(NoThresholdFailure)
        else Returns(ThresholdResult(true, required[k.value].skill, required[k.value].count))
  }

  /** With one requirement that the pawns meet, the check as written
      reports a failure while the intended check passes; with one they miss,
      the check as written passes. */
  lemma ThresholdAsWrittenInverted(ext: OutpostExtension, pawns: seq<Pawn>)
    requires AllHaveSkills(pawns) && ext.requiredSkills.Some? && |ext.requiredSkills.value| == 1
    ensures CheckCumulativeSkillThresholdAsWritten(ext, pawns).Returns?
    ensures CheckCumulativeSkillThreshold(ext, pawns).Returns?
    ensures var a := ext.requiredSkills.value[0];
      GetCumulativeSkill(pawns, a.skill) >= a.count ==>
        CheckCumulativeSkillThresholdAsWritten(ext, pawns).value.failed
        && !CheckCumulativeSkillThreshold(ext, pawns).value.failed
    ensures var a := ext.requiredSkills.value[0];
      GetCumulativeSkill(pawns, a.skill) < a.count ==>
        !CheckCumulativeSkillThresholdAsWritten(ext, pawns).value.failed
        && CheckCumulativeSkillThreshold(ext, pawns).value.failed
  {
  }

  const NoValidPawns: Reason := Reason("Outposts.NoValidPawns", [])
  const TooClose: Reason := Reason("Outposts.TooClose", [])

  function CannotBeMade(biome: BiomeDef): Reason {
    Reason("Outposts.CannotBeMade", [biome])
  }

  function NotEnoughPawns(minPawns: int): Reason {
    Reason("Outposts.NotEnoughPawns", [IntToString(minPawns)])
  }

  function MustHaveInCaravan(c: Cost): Reason {
    Reason("Outposts.MustHaveInCaravan", [c.def.displayLabel, IntToString(c.count)])
  }

  /** Whether the caravan's items hold at least the cost's count of its def. */
  predicate HasThings(items: seq<Thing>, c: Cost) {
    CountOfDef(items, c.def) >= c.count
  }

  /** The first cost the caravan does not carry enough of. */
  function FirstMissingCost(costs: seq<Cost>, items: seq<Thing>): (r: Option<nat>)
    ensures r.Some? ==> r.value < |costs| && !HasThings(items, costs[r.value])
    ensures r.Some? ==> forall i :: 0 <= i < r.value ==> HasThings(items, costs[i])
    ensures r.None? <==> forall i :: 0 <= i < |costs| ==> HasThings(items, costs[i])
  {
    if costs == [] then None
    else if !HasThings(items, costs[0]) then Some(0)
    else
      var rest := FirstMissingCost(costs[1..], items);
      if rest.None? then None else Some(rest.value + 1)
  }

  /** The world facts the placement checks consult. */
  datatype TileFacts = TileFacts(
    /** The tile's biome; None when the world grid has no such tile. */
    biome: Option<BiomeDef>,
    /** A settlement or another outpost is on or next to the tile. */
    proximityInvalid: bool,
    /** The items of the player caravan on the tile, if there is one. */
    caravanItems: Option<seq<Thing>>)

  /** The checks that come before the skill check pass. */
  predicate ReachesSkillCheck(ext: OutpostExtension, tile: TileFacts, pawns: seq<Pawn>) {
    var compatible := CompatiblePawns(ext, pawns).0;
    |compatible| > 0 && IsTileBiomeInvalidAt(ext, tile.biome) == Returns(false) && !tile.proximityInvalid
      && !(ext.minPawns > 0 && |compatible| < ext.minPawns)
  }

  /** The biome check is reached and throws on a missing biome list. */
  predicate BiomeCheckThrows(ext: OutpostExtension, tile: TileFacts, pawns: seq<Pawn>) {
    |CompatiblePawns(ext, pawns).0| > 0 && IsTileBiomeInvalidAt(ext, tile.biome).Throws?
  }

  /** The skill check is reached and throws: the required-skill list is
      missing, or some pawn has no skills to sum. */
  predicate SkillCheckThrows(ext: OutpostExtension, tile: TileFacts, pawns: seq<Pawn>) {
    ReachesSkillCheck(ext, tile, pawns) && ThresholdThrows(ext, pawns)
  }

  /** The skill check passes and the cost check throws on a missing cost
      list, which it asks for any element whether or not a caravan is on
      the tile. */
  predicate CostCheckThrows(ext: OutpostExtension, tile: TileFacts, pawns: seq<Pawn>) {
    ReachesSkillCheck(ext, tile, pawns) && !ThresholdThrows(ext, pawns)
      && !CheckCumulativeSkillThreshold(ext, pawns).value.failed && ext.costToMake.None?
  }

  /** The six placement checks, in the order they are consulted, as they
      read when none of them throws; None marks a check that passes. */
  function SpawnChecks(ext: OutpostExtension, tile: TileFacts, pawns: seq<Pawn>): (checks: seq<Option<Reason>>)
    ensures |checks| == 6
  {
    var (compatible, report) := CompatiblePawns(ext, pawns);
    var biomeInvalid := IsTileBiomeInvalidAt(ext, tile.biome) == Returns(true);
    var threshold := if ReachesSkillCheck(ext, tile, pawns) && !ThresholdThrows(ext, pawns)
                     then CheckCumulativeSkillThreshold(ext, pawns).value
                     else NoThresholdFailure;
    var costs := OrEmpty(ext.costToMake);
    var missing := if tile.caravanItems.Some? then FirstMissingCost(costs, tile.caravanItems.value) else None;
    [ if |compatible| == 0 then Some(report.reason.GetOr(NoValidPawns)) else None,
      if biomeInvalid then Some(CannotBeMade(tile.biome.value)) else None,
      if tile.proximityInvalid then Some(TooClose) else None,
      if ext.minPawns > 0 && |compatible| < ext.minPawns then Some(NotEnoughPawns(ext.minPawns)) else None,
      if threshold.failed then Some(NotSkilledEnough(threshold.skillLabel, threshold.minLevel)) else None,
      if missing.Some? then Some(MustHaveInCaravan(costs[missing.value])) else None ]
  }

  /** The first failure in a list of checks, as a report. */
  function FirstFailure(checks: seq<Option<Reason>>): (r: Report)
    ensures r.accepted <==> forall i :: 0 <= i < |checks| ==> checks[i].None?
  {
    if checks == [] then Accept
    else if checks[0].Some? then Reject(checks[0].value)
    else FirstFailure(checks[1..])
  }

  /** Of six checks, the first that fails decides. */
  lemma FirstFailureOfSix(c: seq<Option<Reason>>)
    requires |c| == 6
    ensures FirstFailure(c)
         == if c[0].Some? then Reject(c[0].value)
            else if c[1].Some? then Reject(c[1].value)
            else if c[2].Some? then Reject(c[2].value)
            else if c[3].Some? then Reject(c[3].value)
            else if c[4].Some? then Reject(c[4].value)
            else if c[5].Some? then Reject(c[5].value)
            else Accept
  {
    var c1 := c[1..];
    var c2 := c1[1..];
    var c3 := c2[1..];
    var c4 := c3[1..];
    var c5 := c4[1..];
    assert c5[1..] == [];
    assert FirstFailure(c5) == if c5[0].Some? then Reject(c5[0].value) else Accept;
    assert FirstFailure(c4) == if c4[0].Some? then Reject(c4[0].value) else FirstFailure(c5);
    assert FirstFailure(c3) == if c3[0].Some? then Reject(c3[0].value) else FirstFailure(c4);
    assert FirstFailure(c2) == if c2[0].Some? then Reject(c2[0].value) else FirstFailure(c3);
    assert FirstFailure(c1) == if c1[0].Some? then Reject(c1[0].value) else FirstFailure(c2);
  }

  /** Whether an outpost can be founded on a tile by these pawns. Founding
      throws when a check it reaches reads a list the configuration left
      out, or when the skill check, which consults all the pawns and not
      only the compatible ones, meets a pawn without skills; otherwise it
      is decided by the first failing of the six ordered checks (no
      compatible pawns, biome, proximity, minimum pawns, skills, caravan
      cost), and accepted when none fails. */
  function CanSpawnOnTile(ext: OutpostExtension, tile: TileFacts, pawns: seq<Pawn>): (r: Outcome<Report>)
    ensures r.Throws? <==>
              BiomeCheckThrows(ext, tile, pawns) || SkillCheckThrows(ext, tile, pawns) || CostCheckThrows(ext, tile, pawns)
    ensures r.Returns? ==> r.value == FirstFailure(SpawnChecks(ext, tile, pawns))
    ensures r.Returns? ==> (r.value.accepted <==> r.value.reason.None?)
  {
    FirstFailureOfSix(SpawnChecks(ext, tile, pawns));
    var (compatible, report) := CompatiblePawns(ext, pawns);
    if |compatible| == 0 then Returns(Reject(report.reason.GetOr(NoValidPawns)))
    else
      var biome := IsTileBiomeInvalidAt(ext, tile.biome);
      if biome.Throws? then Throws(biome.exception)
      else if biome.value then Returns(Reject(CannotBeMade(tile.biome.value)))
      else if tile.proximityInvalid then Returns(Reject(TooClose))
      else if ext.minPawns > 0 && |compatible| < ext.minPawns then Returns(Reject(NotEnoughPawns(ext.minPawns)))
      else
        var threshold := CheckCumulativeSkillThreshold(ext, pawns);
        if threshold.Throws? then Throws(threshold.exception)
        else if threshold.value.failed then
          Returns(Reject(NotSkilledEnough(threshold.value.skillLabel, threshold.value.minLevel)))
        else if ext.costToMake.None? then Throws("ArgumentNullException")
        else
          var costs := ext.costToMake.value;
          var missing := if tile.caravanItems.Some? then FirstMissingCost(costs, tile.caravanItems.value) else None;
          if |costs| > 0 && missing.Some? then Returns(Reject(MustHaveInCaravan(costs[missing.value])))
          else Returns(Accept)
  }

  /** A caravan with a pack animal among its pawns cannot found an outpost
      that requires skills: once the earlier checks pass, the skill check
      throws instead of answering. */
  lemma PackAnimalFoundingThrows(ext: OutpostExtension, tile: TileFacts, pawns: seq<Pawn>, animal: Pawn)
    requires ReachesSkillCheck(ext, tile, pawns)
    requires ext.requiredSkills.Some? && |ext.requiredSkills.value| > 0
    requires animal in pawns && animal.skills.None?
    ensures CanSpawnOnTile(ext, tile, pawns) == Throws("NullReferenceException")
  {
  }

  /** A configuration that leaves out its disallowed biomes cannot found an
      outpost on any known tile: once some pawn is compatible, the biome
      check throws. */
  lemma MissingBiomeListThrows(ext: OutpostExtension, tile: TileFacts, pawns: seq<Pawn>)
    requires |CompatiblePawns(ext, pawns).0| > 0 && tile.biome.Some?
    requires ext.disallowedBiomes.None?
    ensures CanSpawnOnTile(ext, tile, pawns) == Throws("ArgumentNullException")
  {
  }

  /** A configuration that leaves out its cost list throws at the cost
      check once every earlier check passes, with or without a caravan on
      the tile. */
  lemma MissingCostListThrows(ext: OutpostExtension, tile: TileFacts, pawns: seq<Pawn>)
    requires ReachesSkillCheck(ext, tile, pawns) && !ThresholdThrows(ext, pawns)
    requires !CheckCumulativeSkillThreshold(ext, pawns).value.failed
    requires ext.costToMake.None?
    ensures CanSpawnOnTile(ext, tile, pawns) == Throws("ArgumentNullException")
  {
  }

  /** An accepted founding read every list it consulted, has enough
      compatible pawns, skilled enough together, and a caravan (if any)
      that carries every cost. */
  lemma CanSpawnOnTileAccepted(ext: OutpostExtension, tile: TileFacts, pawns: seq<Pawn>)
    requires CanSpawnOnTile(ext, tile, pawns) == Returns(Accept)
    ensures |CompatiblePawns(ext, pawns).0| >= 1
    ensures |CompatiblePawns(ext, pawns).0| >= ext.minPawns
    ensures IsTileBiomeInvalidAt(ext, tile.biome) == Returns(false) && !tile.proximityInvalid
    ensures ext.requiredSkills.Some? && ext.costToMake.Some?
    ensures |ext.requiredSkills.value| > 0 ==> AllHaveSkills(pawns) && SatisfiedBy(ext.requiredSkills.value, pawns)
    ensures |ext.costToMake.value| > 0 && tile.caravanItems.Some? ==>
              forall i :: 0 <= i < |ext.costToMake.value| ==> HasThings(tile.caravanItems.value, ext.costToMake.value[i])
  {
  }
}
