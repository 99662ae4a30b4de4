# Outpost settlement engine — a verified model

This project models the outpost engine of the Vanilla Expanded framework in
Dafny 4.11, together with the reload counter from its multi-verb add-on.

An outpost is a world-map settlement. It owns an occupant roster and an item
inventory, and the game drives it one tick at a time:

- **Packing tracker.** A countdown that packs the outpost back into a caravan.
- **Production tracker.** A countdown that produces goods from the
  configuration's result options and delivers them to the player's colony.
- **Needs scheduler.** Ages and rests occupants and feeds occupants and docked
  visitors.

The model covers:

- admitting pawns, with the one-time construction cost paid out of absorbed
  stacks;
- member deaths and abandonment;
- the delivery router and its letter;
- the capability filter;
- the clamp on raid points;
- the configuration arithmetic: amounts, stacks, skill thresholds and the
  founding checks;
- the per-outpost settings store and its precedence rule;
- transport-pod arrivals;
- the pack-animal delivery job (its toil graph and the drop toil's stuck
  counter);
- the reload counter of a magazine-fed verb.

How the model is written:

- **Classes and functions.** Where the source updates fields in place, the
  model is a class whose methods change those fields. These are the outpost,
  its trackers, the settings store, the mod registry, the pod arrival action,
  the drop toil, the lord and the reloadable verb. Each method is proved
  against a function over values, and the properties are proved about that
  function.
- **Integer arithmetic.** Host integer arithmetic truncates toward zero, and
  the model says so explicitly (`Common.TruncDiv`, `Common.TruncMod`).
- **Float multipliers.** These are `real`. The host's `Mathf.RoundToInt` is
  round-half-to-even (`Common.RoundToInt`).
- **Missing lists.** A list the configuration leaves out is `None`. Where
  the source guards it (the relevant skills, the construction cost), the
  model reads it as empty. Where it does not (the founding checks,
  production), the model throws as the source does, through
  `Common.Outcome`. A missing per-skill list of a result option throws in
  the as-written members (`Config.OptionSkillsAsWritten`,
  `Config.RelevantSkillsAsWritten`); the outpost's own operations read it
  as empty (Findings row 4).
- **Host calls.** Calls into the host with no state in the model are
  appended to the outpost's effects log: ageing, resting, feeding, letters,
  messages and error logs.

Modules and the source files they model:

| module | file | models |
|---|---|---|
| `Common` | common.dfy | integer helpers |
| `Things` | things.dfy | things, pawns, caravans |
| `Utils` | utils.dfy | `Utils.cs`, pawn-level parts |
| `Config` | extension.dfy | `OutpostExtension.cs` |
| `Rules` | rules.dfy | `Utils.cs`, configuration-level parts |
| `Settings` | settings.dfy | `OutpostsModSettings.cs` |
| `OutpostLogic` | outpost_logic.dfy | value-level rules of `Outpost.cs` |
| `Packing` | packing.dfy | `Outpost_PackingTracker.cs` |
| `Production` | production.dfy | `Outpost_ProductionTracker.cs` |
| `Raid` | raid.dfy | `Outpost_RaidTracker.cs` |
| `Visitor` | visitor.dfy | `Outpost_VisitorTracker.cs` |
| `Needs` | needs.dfy | `Outpost_NeedsTracker.cs` |
| `Outposts` | outpost.dfy | the `Outpost` class and the needs passes |
| `ModRegistry` | outposts_mod.dfy | `OutpostsMod.cs` |
| `PodArrival` | pod_arrival.dfy | `TransportPodsArrivalAction_AddToOutpost.cs` |
| `Deliver` | deliver.dfy | `LordJob_Deliver.cs`, `LordToil_Drop.cs` |
| `Reloading` | reloadable.dfy | `VerbComp_Reloadable.cs` |

Snapshot choices. The repository snapshot is part-way through a refactor.
Where it does not compile, the model follows the evident intent:

- **Trackers.** The trackers exist and are owned by the outpost, although the
  `Outpost` constructor (`Outpost.cs:69-74`) never creates them.
- **Tracker back-pointers.** The packing and production trackers have no
  pointer back to the outpost. Their `Tick` methods return whether to convert
  or produce, and `Outposts.Outpost.TickTrackers` acts on that answer.
- **Configuration.** The configuration is the outpost's own `ext` field. The
  source caches a reference to its def's shared extension instead.
- **Needs scheduler.** The needs scheduler's passes are methods of the outpost
  class, because the occupant pass calls `Notify_MemberDied` on it.

## Model

| member | source | states |
|---|---|---|
| Common.TruncDiv | Source/MVCF/Reloading/Comps/VerbComp_Reloadable.cs:51 | integer division truncates toward zero, also for a negative dividend |
| Common.TruncMod | Source/Outposts/Utils.cs:60-61 | the remainder pairs with the truncated quotient (a == b*q + r) and matches the Euclidean one for non-negative operands |
| Common.RoundToInt | Source/Outposts/OutpostExtension.cs:76 | the rounded integer lies within one half of the real |
| Common.ParseIntToString | Source/Outposts/OutpostsModSettings.cs:70-79 | a setting stored as its decimal text parses back to the same integer |
| Things.CorpseOf | Source/Outposts/Outpost/Outpost.cs:475 | a dead member's corpse is one stack that refers to that pawn |
| Outposts.SplitPawns | Source/Outposts/Outpost/Outpost.cs:184-186 | every stack is either a pawn or an item: the pawns and the items together account for all the stacks |
| Things.NonPawnThings | Source/Outposts/Outpost/Outpost.cs:184-186 | the non-pawn stacks of a list: all of them and nothing else |
| Things.Without | Source/Outposts/Outpost/Outpost.cs:473 | removing a pawn from a roster keeps every other member and only members |
| Utils.Line | Source/Outposts/Utils.cs:38-39 | empty exactly when hidden or the input is empty, else a newline followed by the input |
| Utils.MakeResults | Source/Outposts/Utils.cs:55-74 | the loop yields exactly the specified stacks: count / stackLimit full stacks, then one remainder stack |
| Utils.MadeStacksConserve | Source/Outposts/Utils.cs:55-74 | for a non-negative amount the stacks sum to the amount, are all of the def, and the trailing stack (even if 0) is below the stack limit |
| Utils.MadeStacksNegative | Source/Outposts/Utils.cs:60-73 | a negative amount gives a single stack holding the truncated (negative) remainder |
| Utils.CumulativeSkillAppend | Source/Outposts/Utils.cs:314-315 | the summed skill of two groups is the sum of their summed skills |
| Utils.CumulativeSkillPermutation | Source/Outposts/Utils.cs:314-315 | the summed skill does not depend on the order of the pawns |
| Utils.CumulativeSkillMonotone | Source/Outposts/Utils.cs:314-315 | adding pawns with non-negative levels never lowers the summed skill |
| Utils.CheckPawnsSkillThreshold | Source/Outposts/Utils.cs:301-311 | accepted exactly when the summed skill reaches the threshold, else rejected naming skill and threshold |
| Config.LoadFromXml | Source/Outposts/OutpostExtension.cs:88-98 | a node without exactly one child logs the misconfiguration and leaves the entry as it was; a single child with no text or with text that is not an integer makes the parser throw; otherwise the skill is the node's name and the count the parsed text |
| Config.LoadXmlRoundTrip | Source/Outposts/OutpostExtension.cs:88-98 | loading the document form of an entry gives back that entry, with no error |
| Config.AmountBySkillAdditive | Source/Outposts/OutpostExtension.cs:100 | a per-skill term (count times summed skill) is additive over groups of pawns |
| Config.Amount | Source/Outposts/OutpostExtension.cs:72-77 | the produced amount lies within one half of the pre-scale amount times the production multiplier |
| Config.AmountUnscaled | Source/Outposts/OutpostExtension.cs:74-76 | with multiplier 1 the amount is base + per-pawn × pawns + the per-skill terms |
| Config.SkillTermsAdditive | Source/Outposts/OutpostExtension.cs:74 | the per-skill sum is additive over groups of pawns |
| Config.PreScaleAmountAdditive | Source/Outposts/OutpostExtension.cs:74-75 | splitting the pawns in two: the whole's pre-scale amount is the parts' amounts less one base amount |
| Config.SkillTermsPermutation | Source/Outposts/OutpostExtension.cs:74 | the per-skill sum does not depend on the order of the pawns |
| Config.AmountPermutation | Source/Outposts/OutpostExtension.cs:72-77 | the produced amount depends on which pawns are present, not on their order |
| Config.MakeHoldsAmount | Source/Outposts/OutpostExtension.cs:79 | what an option makes holds exactly its amount, all in stacks of the option's thing |
| Config.ExplainShowsAmount | Source/Outposts/OutpostExtension.cs:80 | the explanation line starts with the amount, which reads back exactly before the "x " |
| Config.IndexOf | Source/Outposts/OutpostExtension.cs:80 | the first occurrence of a character, or None when it does not occur |
| Config.RelevantSkills | Source/Outposts/OutpostExtension.cs:39-61 | the corrected half of Findings row 4: exactly the skills named by the required skills and by every option's per-skill and minimum per-skill terms, without repeats, a missing per-skill list read as empty |
| Config.OptionSkillsAsWritten | Source/Outposts/OutpostExtension.cs:47-60 | as written, the walk over the result options throws exactly when some option leaves out either per-skill list, and otherwise lists the skills the null-safe reading lists |
| Config.RelevantSkillsAsWritten | Source/Outposts/OutpostExtension.cs:39-61 | as written, reading the relevant skills throws exactly when some result option leaves out either per-skill list, and otherwise gives the same set as RelevantSkills |
| Config.MissingSkillListThrows | Source/Outposts/OutpostExtension.cs:47-55 | the as-written half of Findings row 4: an option without AmountsPerSkills makes the collection throw, while RelevantSkills still lists the option's minimum skills |
| Config.MissingListReadsAsEmpty | Source/Outposts/OutpostExtension.cs:39-61 | RelevantSkills is exactly what the collection as written returns once every missing per-skill list is given as an empty one |
| Config.SkillsOfMembership | Source/Outposts/OutpostExtension.cs:44-47 | a skill is listed exactly when some term names it |
| Config.OptionSkillsMembership | Source/Outposts/OutpostExtension.cs:49-60 | a skill is listed from the options exactly when some option's per-skill or minimum term names it |
| Rules.SatisfiedByMonotone | Source/Outposts/Utils.cs:16-17 | a group that meets every minimum still meets them after pawns with non-negative levels join |
| Rules.CanAddPawn | Source/Outposts/Utils.cs:162-169 | accepted exactly when no history event is configured or the pawn's ideology allows it; otherwise rejected as forbidden |
| Rules.AcceptedPrefixLength | Source/Outposts/Utils.cs:176-188 | every pawn before the index is accepted, and the pawn at it, if any, is rejected |
| Rules.CompatiblePawns | Source/Outposts/Utils.cs:171-191 | the accepted pawns before the first rejection, with that rejection as report (the default report when none) |
| Rules.GetCompatiblePawns | Source/Outposts/Utils.cs:171-191 | the loop with its break returns exactly the compatible pawns and the report |
| Rules.IsTileBiomeInvalid | Source/Outposts/Utils.cs:213-215 | throws exactly when the disallowed list is missing, or when it does not name the biome and the allowed list is missing; otherwise invalid exactly when the biome is disallowed, or when an allowed list exists and lacks it |
| Rules.IsTileBiomeInvalidAt | Source/Outposts/Utils.cs:217-222 | a tile the grid does not have is never invalid and reads no list; for a known tile, the biome rule with its throws |
| Rules.FirstMet | Source/Outposts/Utils.cs:285-290 | the first required skill whose pawn-level check accepts, or None when none does |
| Rules.CheckCumulativeSkillThresholdAsWritten | Source/Outposts/Utils.cs:281-298 | as written: throws exactly when the required-skill list is missing, or when there is a requirement and some pawn has no skills; otherwise fails exactly when some requirement is MET |
| Rules.FirstUnmet | Source/Outposts/Utils.cs:285-290 | the first required skill the pawns do not reach, or None exactly when every minimum is met |
| Rules.CheckCumulativeSkillThreshold | Source/Outposts/Utils.cs:281-298 | corrected: the same throws; otherwise passes exactly when there are no requirements or every one is met, and a failure names the first unmet skill and its level |
| Rules.ThresholdAsWrittenInverted | Source/Outposts/Utils.cs:285-295 | with one requirement the pawns meet, the written check reports failure while the corrected one passes; with one they miss, the reverse |
| Rules.FirstMissingCost | Source/Outposts/Utils.cs:264-276 | the first cost the caravan does not carry enough of; None exactly when it carries all of them |
| Rules.CanSpawnOnTile | Source/Outposts/Utils.cs:235-279 | throws exactly when a check it reaches throws: the biome check on a missing biome list, the skill check on a missing required-skill list or a pawn without skills, the cost check on a missing cost list; otherwise the result is the first failing of the six ordered checks (no compatible pawns, biome, proximity, minimum pawns, skills, caravan cost), a rejection carrying a reason and an acceptance none |
| Rules.SpawnChecks | Source/Outposts/Utils.cs:235-279 | the six placement checks, in the source's order, as they read when none of them throws |
| Rules.FirstFailure | Source/Outposts/Utils.cs:235-279 | accepted exactly when no check fails, else the first failing check's reason |
| Rules.CanSpawnOnTileAccepted | Source/Outposts/Utils.cs:235-279 | an accepted founding found its required-skill and cost lists present, and has at least one and at least MinPawns compatible pawns, a valid tile, the required skills, and every cost in the caravan |
| Rules.PackAnimalFoundingThrows | Source/Outposts/Utils.cs:253-315 | a pack animal (a pawn without skills) among the founders makes the founding check throw once the earlier checks pass and skills are required |
| Rules.MissingBiomeListThrows | Source/Outposts/Utils.cs:213-245 | a configuration without a disallowed-biome list makes founding on any known tile throw once some pawn is compatible |
| Rules.MissingCostListThrows | Source/Outposts/Utils.cs:262-266 | a configuration without a cost list makes founding throw at the cost check once every earlier check passes (the skill threshold included, whatever skills it requires), with or without a caravan on the tile |
| Settings.Lookup | Source/Outposts/OutpostsModSettings.cs:63-68 | present exactly when the key is; an absent key yields no value; a present one its parsed text |
| Settings.LookupOrDefault | Source/Outposts/OutpostsModSettings.cs:70-75 | the typed lookup: an absent key yields the default 0 |
| Settings.SetThenLookup | Source/Outposts/OutpostsModSettings.cs:70-79 | a stored value reads back as itself and leaves every other key's reading unchanged |
| Settings.OutpostSettings.constructor | Source/Outposts/OutpostsModSettings.cs:24-27 | a new entry has the outpost's def name and no stored values |
| Settings.OutpostSettings.Has | Source/Outposts/OutpostsModSettings.cs:61 | holds exactly when the key is stored |
| Settings.OutpostSettings.TryGetValue | Source/Outposts/OutpostsModSettings.cs:63-68 | true exactly when the key is stored; the value is absent otherwise |
| Settings.OutpostSettings.TryGetValueOrDefault | Source/Outposts/OutpostsModSettings.cs:70-75 | true exactly when the key is stored; the value is 0 otherwise |
| Settings.OutpostSettings.Set | Source/Outposts/OutpostsModSettings.cs:79 | stores the decimal text of the value, overwriting, and it reads back as the value |
| Settings.OutpostSettings.Remove | Source/Outposts/OutpostsMod.cs:146 | the key is gone and nothing else changes |
| Settings.ModSettings.constructor | Source/Outposts/OutpostsModSettings.cs:10-16 | defaults: teleport delivery, raids on, all three multipliers 1, raid interval half a quadrum to a quadrum, no stored entries |
| Settings.ModSettings.SettingsFor | Source/Outposts/OutpostsModSettings.cs:20-32 | an existing non-null entry is returned unchanged; otherwise a new one named after the def is stored; afterwards the key maps to the result |
| OutpostLogic.FindDef | Source/Outposts/Outpost/Outpost.cs:237 | the first entry for a definition, or None when there is none |
| OutpostLogic.CostForRemoveAt | Source/Outposts/Outpost/Outpost.cs:247 | removing a settled entry zeroes that definition's cost and leaves the others |
| OutpostLogic.CostForUpdate | Source/Outposts/Outpost/Outpost.cs:240 | lowering an entry's count changes only that definition's cost |
| OutpostLogic.DeductStep | Source/Outposts/Outpost/Outpost.cs:235-253 | the removal predicate on one stack: a stack that stays keeps its def and kind |
| OutpostLogic.Deduct | Source/Outposts/Outpost/Outpost.cs:232-255 | walking the stacks in order keeps no more stacks than there were |
| OutpostLogic.DeductStepPerDef | Source/Outposts/Outpost/Outpost.cs:236-253 | one stack pays min(owed, stack) of its own def and nothing of any other |
| OutpostLogic.DeductPerDef | Source/Outposts/Outpost/Outpost.cs:232-255 | for every definition the deduction removes exactly min(owed, held) units, and the remaining cost is max(owed − held, 0) |
| OutpostLogic.DeductWellFormed | Source/Outposts/Outpost/Outpost.cs:232-254 | the costs still owed keep one entry per definition, each owing a positive count |
| OutpostLogic.DeductSettlesIff | Source/Outposts/Outpost/Outpost.cs:232-254 | the cost is settled (so paid is set) exactly when every entry was covered by the held units |
| OutpostLogic.OfDef | Source/Outposts/Outpost/Outpost.cs:237 | the stacks of one definition, all of that definition |
| OutpostLogic.DeductLeavesOtherDefs | Source/Outposts/Outpost/Outpost.cs:235-237 | stacks of definitions the cost does not name are left exactly as they were |
| OutpostLogic.SinglesOf | Source/Outposts/Outpost/Outpost.cs:708-715 | the stacks the letter lists one by one: all the single stacks and only those |
| OutpostLogic.AddToCountsSpec | Source/Outposts/Outpost/Outpost.cs:717-724 | adding a stack keeps one entry per definition, opens one only for a new definition, and adds its count to its own definition only |
| OutpostLogic.ManifestGroups | Source/Outposts/Outpost/Outpost.cs:708-728 | the letter lists exactly the singles in order, and one entry per grouped definition whose count is that definition's total |
| OutpostLogic.ManifestConserves | Source/Outposts/Outpost/Outpost.cs:708-728 | the letter accounts for every unit delivered: singles plus grouped totals equal the delivered total |
| OutpostLogic.AdmitNoDups | Source/Outposts/Outpost/Outpost.cs:268-271 | admitting pawns keeps the roster free of repeats |
| OutpostLogic.AdmitMember | Source/Outposts/Outpost/Outpost.cs:181-194 | after admission the roster holds exactly its earlier members and the offered pawns the configuration accepts |
| OutpostLogic.DropFirstPawnSpec | Source/Outposts/Outpost/Outpost.cs:184-186 | taking the first pawn out of the inventory leaves the other pawns in order and every item |
| OutpostLogic.NoPawnsLeft | Source/Outposts/Outpost/Outpost.cs:184-193 | an inventory without pawns is its own item list |
| OutpostLogic.CapablePawns | Source/Outposts/Outpost/Outpost.cs:878-886 | exactly the humanlike occupants with skills and no totally disabled relevant skill, in roster order |
| OutpostLogic.ProducedTotal | Source/Outposts/Outpost/Outpost.cs:160-163 | with no negative amount, the stacks produced hold the sum of the options' amounts |
| OutpostLogic.RecountedTotals | Source/Outposts/Outpost/Outpost.cs:867-873 | as written, a recount stores the queried skill's total under every skill def and leaves other keys alone |
| OutpostLogic.Clamp | Source/Outposts/Outpost/Outpost.cs:844 | the value forced into [lo, hi], unchanged when already inside |
| OutpostLogic.ResolveRaidPoints | Source/Outposts/Outpost/Outpost.cs:843-844 | always within [35, 10000], and equal to max(points, mapPoints) × multiplier whenever that lies inside |
| OutpostLogic.RaidPointsMonotone | Source/Outposts/Outpost/Outpost.cs:843-844 | with a non-negative multiplier, more points before the clamp never give fewer raid points |
| OutpostLogic.DeliveryRoute | Source/Outposts/Outpost/Outpost.cs:657-705 | no map: kept; Store: kept; ForcePods: pods; PackOrPods: pods exactly when researched; teleport and pack animals otherwise |
| OutpostLogic.Delivered | Source/Outposts/Outpost/Outpost.cs:654-731 | roster untouched; without a map only a warning is logged; otherwise the last effect is the letter built from the manifest |
| OutpostLogic.DeliverKeepsOrShips | Source/Outposts/Outpost/Outpost.cs:657-663 | goods kept are all appended to the inventory, none lost; goods sent leave the inventory unchanged |
| OutpostLogic.MemberDiedSpec | Source/Outposts/Outpost/Outpost.cs:459-483 | an alive pawn only logs an error; a dead one leaves the roster, its corpse joins the inventory, and the outpost is abandoned exactly when no other occupant remains |
| OutpostLogic.WithoutNoDups | Source/Outposts/Outpost/Outpost.cs:473 | removing a member keeps the roster free of repeats, and empties it exactly when it held only that member |
| OutpostLogic.Healthy | Source/Outposts/Outpost/Outpost.cs:892-898 | the corrected half of Findings row 6: the inventory without destroyed and empty stacks, every other stack staying |
| OutpostLogic.HealthySpec | Source/Outposts/Outpost/Outpost.cs:892-898 | housekeeping is idempotent and, without destroyed stacks, keeps every unit |
| OutpostLogic.FirstSpoiled | Source/Outposts/Outpost/Outpost.cs:894 | the first destroyed or empty stack, the one the lazy filter yields first, or none when no stack is spoiled |
| OutpostLogic.HealthyAsWritten | Source/Outposts/Outpost/Outpost.cs:892-898 | as written: throws exactly when some stack is spoiled, after removing only the first; otherwise the inventory stays |
| OutpostLogic.HealthyAsWrittenLeavesSpoiled | Source/Outposts/Outpost/Outpost.cs:892-898 | the as-written half of Findings row 6: with two spoiled stacks the pass throws and leaves one behind, while Healthy leaves none |
| OutpostLogic.HealthyAsWrittenAgrees | Source/Outposts/Outpost/Outpost.cs:892-898 | without a spoiled stack both the pass as written and Healthy leave the inventory as it is |
| Packing.TicksToPack | Source/Outposts/Outpost/Outpost_PackingTracker.cs:18 | the configured time, or 420000 ticks, divided by the occupant count |
| Packing.TicksToPackNonIncreasing | Source/Outposts/Outpost/Outpost_PackingTracker.cs:18 | more occupants never pack more slowly |
| Packing.PackStep | Source/Outposts/Outpost/Outpost_PackingTracker.cs:26-36 | a positive countdown drops by one; an idle one stays as it is |
| Packing.ConvertsOn | Source/Outposts/Outpost/Outpost_PackingTracker.cs:28-34 | a tick converts exactly when the countdown stood at 1 |
| Packing.PackCountdown | Source/Outposts/Outpost/Outpost_PackingTracker.cs:26-36 | from n > 0, k < n ticks leave n − k, and the conversion happens on tick n and no other |
| Packing.IdleStaysIdle | Source/Outposts/Outpost/Outpost_PackingTracker.cs:28 | an idle tracker stays idle and never converts, however many ticks pass |
| Packing.PackCommands | Source/Outposts/Outpost/Outpost_PackingTracker.cs:43-78 | stop only while packing, start only while not, dev pack-now only in dev mode while packing |
| Packing.PackingTracker.constructor | Source/Outposts/Outpost/Outpost_PackingTracker.cs:16-24 | a new tracker holds -1 and is not packing |
| Packing.PackingTracker.Packing | Source/Outposts/Outpost/Outpost_PackingTracker.cs:19 | packing only with a positive countdown; the stopped value -1 is not packing |
| Packing.PackingTracker.Tick | Source/Outposts/Outpost/Outpost_PackingTracker.cs:26-36 | the countdown steps by PackStep, conversion is signalled exactly when ConvertsOn, and an idle tick changes nothing |
| Packing.PackingTracker.StopPacking | Source/Outposts/Outpost/Outpost_PackingTracker.cs:50 | the countdown is -1 and the tracker is idle |
| Packing.PackingTracker.StartPacking | Source/Outposts/Outpost/Outpost_PackingTracker.cs:61 | the countdown is the pack time scaled by the time multiplier |
| Packing.PackingTracker.PackNow | Source/Outposts/Outpost/Outpost_PackingTracker.cs:73 | the countdown is 1, so the next tick converts |
| Packing.PackingTracker.Apply | Source/Outposts/Outpost/Outpost_PackingTracker.cs:43-78 | each command's action sets the countdown to its value |
| Production.TicksPerProduction | Source/Outposts/Outpost/Outpost_ProductionTracker.cs:14 | the configured period, or 900000 ticks without a configuration |
| Production.ProductionGate | Source/Outposts/Outpost/Outpost_ProductionTracker.cs:57 | the tick counts down exactly when a packing tracker exists and is not packing; the period guard has no effect |
| Production.ProductionStep | Source/Outposts/Outpost/Outpost_ProductionTracker.cs:55-66 | gated off: nothing changes; otherwise the countdown drops, and on reaching ≤ 0 resets to the scaled period and produces once |
| Production.RunProductionCompose | Source/Outposts/Outpost/Outpost_ProductionTracker.cs:55-66 | running a + b ticks is running a ticks then b ticks, with the productions added |
| Production.RunProductionCountsDown | Source/Outposts/Outpost/Outpost_ProductionTracker.cs:58-60 | fewer ticks than the countdown produce nothing and lower it by the number of ticks |
| Production.ProductionCycles | Source/Outposts/Outpost/Outpost_ProductionTracker.cs:55-66 | with a positive period, k periods of ticks produce exactly k times and end back at the period |
| Production.ProductionEveryTick | Source/Outposts/Outpost/Outpost_ProductionTracker.cs:57-64 | with a non-positive period, every ungated tick produces |
| Production.ProductionTracker.constructor | Source/Outposts/Outpost/Outpost_ProductionTracker.cs:12 | a new tracker's countdown is 0 |
| Production.ProductionTracker.PostAdd | Source/Outposts/Outpost/Outpost_ProductionTracker.cs:50-53 | the countdown starts at the period scaled by the time multiplier |
| Production.ProductionTracker.Tick | Source/Outposts/Outpost/Outpost_ProductionTracker.cs:55-66 | the countdown and the produce signal are ProductionStep of the old countdown and the gate |
| Production.ProductionTracker.ProduceNow | Source/Outposts/Outpost/Outpost_ProductionTracker.cs:33 | the countdown is 10 |
| Raid.RaidTracker.constructor | Source/Outposts/Outpost/Outpost_RaidTracker.cs:13-16 | a new record names its outpost and holds no faction and no points |
| Raid.RaidTracker.Reset | Source/Outposts/Outpost/Outpost_RaidTracker.cs:18-22 | faction null, points 0, parent unchanged (so resetting twice is resetting once) |
| Visitor.GetDockedCaravan | Source/Outposts/Outpost/Outpost_VisitorTracker.cs:29 | the tile's caravan when it is docked, null exactly when none is docked |
| Visitor.HasDockedCaravan | Source/Outposts/Outpost/Outpost_VisitorTracker.cs:25-27 | a docked caravan exists, and a moving caravan is never docked |
| Visitor.IsPawnOccupant | Source/Outposts/Outpost/Outpost_VisitorTracker.cs:31 | an occupant is a pawn held at some position of the roster |
| Visitor.TryGetDockedCaravan | Source/Outposts/Outpost/Outpost_VisitorTracker.cs:35-39 | returns whether a caravan is docked, and outputs it or null |
| Visitor.IsPawnVisitor | Source/Outposts/Outpost/Outpost_VisitorTracker.cs:33 | holds exactly when a caravan is docked and contains the pawn |
| Needs.IsPawnRestTime | Source/Outposts/Outpost/Outpost_NeedsTracker.cs:25-28 | rest time is hour 23 and hours 0 to 5 of the day, and never hours 6 to 22 |
| Needs.IsPawnSatisfyable | Source/Outposts/Outpost/Outpost_NeedsTracker.cs:41-49 | false for a null, spawned or dead pawn, true otherwise |
| Needs.HashIntervalPeriodic | Source/Outposts/Outpost/Outpost_NeedsTracker.cs:215 | after a passing tick, a later tick passes exactly when the distance is a multiple of the interval |
| Needs.FoodEffects | Source/Outposts/Outpost/Outpost_NeedsTracker.cs:212-229 | one meal of the provided food exactly when the interval tick, the want-eat level and the food's edibility all allow it, else nothing |
| Needs.FedOncePerInterval | Source/Outposts/Outpost/Outpost_NeedsTracker.cs:215 | a pawn fed on a tick is not fed again within the next 299 ticks |
| Needs.RestEffects | Source/Outposts/Outpost/Outpost_NeedsTracker.cs:68-71 | rest at effectiveness 0.75 during rest time only |
| Needs.OccupantStepSpec | Source/Outposts/Outpost/Outpost_NeedsTracker.cs:59-81 | skips unsatisfyable or non-occupant pawns; otherwise age, rest, a death reported before the food step; the roster only loses that pawn and keeps no repeats |
| Needs.OccupantPassRoster | Source/Outposts/Outpost/Outpost_NeedsTracker.cs:51-57 | after the pass the roster holds exactly the earlier members the pass did not kill, without repeats |
| Needs.OccupantPassNoDeaths | Source/Outposts/Outpost/Outpost_NeedsTracker.cs:51-81 | a pass in which nobody dies changes neither roster, inventory nor abandonment |
| Needs.OccupantPassAsWritten | Source/Outposts/Outpost/Outpost_NeedsTracker.cs:51-57 | as written: the pass throws exactly when some pawn it reaches dies, and stops after that pawn's step |
| Needs.OccupantPassCons | Source/Outposts/Outpost/Outpost_NeedsTracker.cs:51-57 | the snapshot pass is the first pawn's step followed by the pass over the others |
| Needs.OccupantPassAsWrittenAgrees | Source/Outposts/Outpost/Outpost_NeedsTracker.cs:51-81 | a pass in which nobody dies runs to its end as written and agrees with the snapshot pass |
| Needs.FirstDeathStopsPass | Source/Outposts/Outpost/Outpost_NeedsTracker.cs:51-81 | the as-written half of Findings row 5: when the first of two occupants dies, the pass as written throws before the second is aged, rested or fed, which the snapshot pass does |
| Needs.VisitorStep | Source/Outposts/Outpost/Outpost_NeedsTracker.cs:94-108 | a visitor step touches only the log, and only with the food effects of a satisfyable pawn |
| Needs.VisitorPass | Source/Outposts/Outpost/Outpost_NeedsTracker.cs:83-92 | the visitor pass never changes roster, inventory or abandonment and only appends to the log |
| Needs.VisitorPassOnlyFeeds | Source/Outposts/Outpost/Outpost_NeedsTracker.cs:83-108 | every entry the visitor pass adds is a meal for a satisfyable caravan member whose food gate is open |
| Needs.NeedsTick | Source/Outposts/Outpost/Outpost_NeedsTracker.cs:30-39 | the visitor pass always; the occupant pass only without a map, and with a map the roster and inventory are untouched |
| Outposts.OfferStack | Source/Outposts/Outpost/Outpost.cs:235-253 | the removal predicate as code computes DeductStep |
| Outposts.RemoveCosts | Source/Outposts/Outpost/Outpost.cs:232-255 | the in-order removal over the inventory computes Deduct |
| Outposts.RemoveFirst | Source/Outposts/Outpost/Outpost.cs:83 | taking a held stack removes one copy of it; a missing stack removes nothing |
| Outposts.AddThenTake | Source/Outposts/Outpost/Outpost.cs:77-83 | taking back a stack just added restores what was held |
| Outposts.Visitors | Source/Outposts/Outpost/Outpost_NeedsTracker.cs:85-87 | the docked caravan's members, or nobody when no caravan is docked |
| Outposts.Outpost.constructor | Source/Outposts/Outpost/Outpost.cs:69-74 | empty containers, cost unpaid, idle packing tracker and production countdown 0, a raid record owned by the outpost; with a well-formed configuration the new outpost is Valid |
| Outposts.Outpost.Range | Source/Outposts/Outpost/Outpost.cs:40 | the configured range, or -1 without a configuration |
| Outposts.Outpost.IsRangeValid | Source/Outposts/Outpost/Outpost.cs:41 | holds exactly when a configuration exists and its range is not -1 |
| Outposts.Outpost.ProvidedFood | Source/Outposts/Outpost/Outpost.cs:52 | the configured food, or a simple meal |
| Outposts.Outpost.ConfiguredPeriod | Source/Outposts/Outpost/Outpost_ProductionTracker.cs:14 | present exactly when a configuration exists, and then its production period |
| Outposts.Outpost.ConfiguredPackTime | Source/Outposts/Outpost/Outpost_PackingTracker.cs:18 | present exactly when a configuration exists, and then its pack time |
| Outposts.Outpost.AddItem | Source/Outposts/Outpost/Outpost.cs:77 | the stack is appended to the inventory |
| Outposts.Outpost.AddItems | Source/Outposts/Outpost/Outpost.cs:81 | the stacks are appended in order |
| Outposts.Outpost.TakeItem | Source/Outposts/Outpost/Outpost.cs:83 | a held stack is returned and one copy removed; a missing one returns nothing and logs the host's error |
| Outposts.Outpost.PostAdd | Source/Outposts/Outpost/Outpost.cs:95-99 | the production countdown starts at the scaled period |
| Outposts.Outpost.RunPackCommand | Source/Outposts/Outpost/Outpost_PackingTracker.cs:43-78 | an offered command takes effect: stop makes the tracker idle, start sets the scaled pack time, dev pack-now arms the conversion |
| Outposts.Outpost.Deliver | Source/Outposts/Outpost/Outpost.cs:654-731 | the routing and the letter-building loop compute Delivered of the old state |
| Outposts.Outpost.Produce | Source/Outposts/Outpost/Outpost.cs:160-168 | a configuration without result options throws before anything is made, and the holdings stay as they were; otherwise what the result options make with the capable occupants is delivered |
| Outposts.Outpost.BuildManifest | Source/Outposts/Outpost/Outpost.cs:708-725 | the letter's two lists are exactly Manifest of the goods: the stacks that stand alone, and one total per definition of the others |
| Outposts.Outpost.RecachePawnTraits | Source/Outposts/Outpost/Outpost.cs:181-194 | every pawn leaves the inventory, the items stay in order, and the accepted pawns join the roster by Admit |
| Outposts.Outpost.AddPawn | Source/Outposts/Outpost/Outpost.cs:196-275 | returns true exactly when the configuration accepts the pawn; a rejection changes nothing; an admission absorbs the caravan when no other humanlike stays, deducts the unpaid cost, puts the pawn on the roster once, and keeps the roster free of repeats |
| Outposts.Outpost.ConvertToCaravan | Source/Outposts/Outpost/Outpost.cs:277-285 | the new caravan holds the occupants and every pawn and item of the inventory; the outpost is emptied and destroyed; the outpost stays Valid |
| Outposts.Outpost.Abandon | Source/Outposts/Outpost/Outpost.cs:1022-1031 | the abandonment letter is sent and the outpost is abandoned |
| Outposts.Outpost.DockCaravan | Source/Outposts/Outpost/Outpost.cs:203-258 | inventory and cost flag are Absorb of the old ones; the caravan keeps its items and the other pawns while a humanlike stays, else it is emptied and destroyed; the outpost stays Valid |
| Outposts.Outpost.Join | Source/Outposts/Outpost/Outpost.cs:261-271 | the pawn leaves its place on the roster and joins at the end, and the roster keeps no repeats; the outpost stays Valid |
| Outposts.Outpost.NotifyMemberDied | Source/Outposts/Outpost/Outpost.cs:459-483 | the new state is MemberDied of the old one; the outpost stays Valid |
| Outposts.Outpost.CheckNoDestroyedOrNoStack | Source/Outposts/Outpost/Outpost.cs:892-898 | the corrected half of Findings row 6: the inventory becomes Healthy of the old one, and the outpost stays Valid |
| Outposts.Outpost.TotalSkill | Source/Outposts/Outpost/Outpost.cs:865-876 | while dirty the cache is recounted as written; the result is the cached total for the skill, which is the capable occupants' summed level |
| Outposts.Outpost.SatisfyFoodNeed | Source/Outposts/Outpost/Outpost_NeedsTracker.cs:212-229 | the log gains exactly the pawn's food effects |
| Outposts.Outpost.RecordDeath | Source/Outposts/Outpost/Outpost.cs:467-483 | for a dead member the new state is MemberDied of the old one; the outpost stays Valid |
| Outposts.Outpost.SatisfyOccupant | Source/Outposts/Outpost/Outpost_NeedsTracker.cs:59-81 | the new state is OccupantStep of the old one |
| Outposts.Outpost.SatisfyOccupantNeeds | Source/Outposts/Outpost/Outpost_NeedsTracker.cs:51-57 | the corrected half of Findings row 5: the loop over the roster as it stood when the pass began computes OccupantPass and keeps the outpost Valid |
| Outposts.Outpost.SatisfyVisitor | Source/Outposts/Outpost/Outpost_NeedsTracker.cs:94-108 | a satisfyable visitor gets its food effects; anyone else changes nothing |
| Outposts.Outpost.SatisfyVisitorNeeds | Source/Outposts/Outpost/Outpost_NeedsTracker.cs:83-92 | the loop over the docked caravan computes VisitorPass |
| Outposts.Outpost.TickNeeds | Source/Outposts/Outpost/Outpost_NeedsTracker.cs:30-39 | the scheduler tick computes NeedsTick |
| Outposts.Outpost.TickTrackers | Source/Outposts/Outpost/Outpost.cs:152-156 | the packing countdown steps and converts exactly on its last tick; then production steps with the packing gate read after packing; a production that throws is reported and delivers nothing; the holdings follow |
| Outposts.Outpost.Tick | Source/Outposts/Outpost/Outpost.cs:152-158 | packing, then production, then the needs scheduler, in that order; a production that throws on missing result options ends the tick before the needs scheduler; the roster stays free of repeats |
| ModRegistry.Key | Source/Outposts/OutpostsMod.cs:88 | a setting's key is the declaring type's name, a dot and the field's name |
| ModRegistry.KeysDistinct | Source/Outposts/OutpostsMod.cs:98 | distinct fields are stored under distinct keys |
| ModRegistry.Put | Source/Outposts/OutpostsMod.cs:100 | setting one field changes that field only |
| ModRegistry.Initialized | Source/Outposts/OutpostsMod.cs:89-90 | the stored value when present, else the attribute default when non-null, else the current value |
| ModRegistry.InitializedFrame | Source/Outposts/OutpostsMod.cs:94-102 | initialising a list of fields sets each listed one by the precedence rule and leaves the rest of the configuration alone |
| ModRegistry.InitializedFields | Source/Outposts/OutpostsMod.cs:94-102 | every marked field ends at its stored value, or keeps its value when none is stored |
| ModRegistry.InitializeIdempotent | Source/Outposts/OutpostsMod.cs:81-103 | initialising twice from the same store is initialising once |
| ModRegistry.StoredSettingTakesEffect | Source/Outposts/OutpostsMod.cs:144-151 | a value the page stores is the value the field takes at the next initialisation; a removed key leaves the field as it is |
| ModRegistry.ShownValue | Source/Outposts/OutpostsMod.cs:142 | the stored value, else the default without a configuration object, else the configuration's field |
| ModRegistry.Registry.constructor | Source/Outposts/OutpostsMod.cs:109 | the registry holds the settings and the outpost defs found at load |
| ModRegistry.Registry.SettingsCategory | Source/Outposts/OutpostsMod.cs:109 | absent exactly when there is no outpost def, else the settings title |
| ModRegistry.Registry.InitializeSettings | Source/Outposts/OutpostsMod.cs:81-103 | the kind's entry exists and the configuration is initialised from its store; other entries stay |
| ModRegistry.Registry.NotifySpawned | Source/Outposts/OutpostsMod.cs:76-79 | exactly the initialisation of that outpost |
| ModRegistry.Registry.NotifyRemoved | Source/Outposts/OutpostsMod.cs:105-107 | nothing changes |
| ModRegistry.Registry.DoSetting | Source/Outposts/OutpostsMod.cs:137-153 | a drawn null (the default) removes the key; any other value is stored and reads back |
| ModRegistry.Registry.WriteSettings | Source/Outposts/OutpostsMod.cs:179-189 | every outpost's configuration is re-initialised from its kind's store |
| PodArrival.GatheredMember | Source/Outposts/TransportPodsArrivalAction_AddToOutpost.cs:22 | a thing is gathered exactly when some pod holds it |
| PodArrival.PodMessagesFor | Source/Outposts/TransportPodsArrivalAction_AddToOutpost.cs:25-30 | one message per pawn, in order |
| PodArrival.RoutedKeepsItems | Source/Outposts/TransportPodsArrivalAction_AddToOutpost.cs:33-43 | no item is lost: the inventory's items are the earlier items followed by the arriving items, in order |
| PodArrival.RoutedAdmits | Source/Outposts/TransportPodsArrivalAction_AddToOutpost.cs:33-43 | the roster keeps its members, gains every arriving pawn the configuration accepts, and holds no repeats |
| PodArrival.AddToOutpost.constructor | Source/Outposts/TransportPodsArrivalAction_AddToOutpost.cs:17 | the action targets the given outpost |
| PodArrival.AddToOutpost.StillValid | Source/Outposts/TransportPodsArrivalAction_AddToOutpost.cs:52-53 | holds exactly when the outpost is on the destination tile |
| PodArrival.AddToOutpost.GatherPod | Source/Outposts/TransportPodsArrivalAction_AddToOutpost.cs:22-31 | the log gains one message per pawn of the pod, in order, and none per item |
| PodArrival.AddToOutpost.GatherPods | Source/Outposts/TransportPodsArrivalAction_AddToOutpost.cs:21-31 | the pods' contents in order, with exactly one message per pawn and none per item |
| PodArrival.AddToOutpost.RouteThings | Source/Outposts/TransportPodsArrivalAction_AddToOutpost.cs:33-43 | each pawn offered to the roster and each item added, once each, in order |
| PodArrival.AddToOutpost.Arrived | Source/Outposts/TransportPodsArrivalAction_AddToOutpost.cs:19-44 | everything is gathered before anything is routed |
| Deliver.CreateGraph | Source/Outposts/Deliver/LordJob_Deliver.cs:22-47 | starts at travel; four toils; the drop toil's two transitions both keyed on the all-dropped memo, exit first |
| Deliver.CreateGraphIntended | Source/Outposts/Deliver/LordJob_Deliver.cs:40-42 | the same graph with the second drop transition keyed on the area-full memo |
| Deliver.FirstMatch | Source/Outposts/Deliver/LordJob_Deliver.cs:31-45 | None exactly when no registered transition fires |
| Deliver.GraphShape | Source/Outposts/Deliver/LordJob_Deliver.cs:31-45 | travel goes to drop on arrival or harm, goto-drop-loc returns to drop on arrival, exit-map is final, all-dropped ends the job |
| Deliver.AsBuiltNeverSeeksNewSpot | Source/Outposts/Deliver/LordJob_Deliver.cs:35-42 | as built, no signal takes drop to goto-drop-loc and the area-full memo moves no toil |
| Deliver.IntendedSeeksNewSpot | Source/Outposts/Deliver/LordJob_Deliver.cs:40-42 | in the intended graph area-full leads to a new drop spot and all-dropped still ends the job |
| Deliver.DropStep | Source/Outposts/Deliver/LordToil_Drop.cs:23-29 | the counter rises by one; all-dropped is sent exactly when every inventory is empty; area-full exactly when the new count exceeds 60; both can come in one tick |
| Deliver.AreaFullFromTick61 | Source/Outposts/Deliver/LordToil_Drop.cs:28 | counted from a reset, tick n reports area-full exactly when n > 60 |
| Deliver.DropToil.constructor | Source/Outposts/Deliver/LordToil_Drop.cs:13 | a new toil's counter is 0 |
| Deliver.DropToil.UpdateAllDuties | Source/Outposts/Deliver/LordToil_Drop.cs:17-21 | the counter is reset to 0 |
| Deliver.DropToil.Tick | Source/Outposts/Deliver/LordToil_Drop.cs:23-29 | the counter and the memos are DropStep of the old counter |
| Deliver.Lord.constructor | Source/Outposts/Deliver/LordJob_Deliver.cs:24-30 | the job starts at the graph's start toil with a fresh drop toil |
| Deliver.Lord.ReceiveSignal | Source/Outposts/Deliver/LordJob_Deliver.cs:31-45 | the toil becomes Next of the signal; entering the drop toil resets its counter |
| Deliver.Lord.TickDrop | Source/Outposts/Deliver/LordToil_Drop.cs:23-29 | the drop toil's memos reach the lord in order |
| Deliver.BothMemosEndTheJob | Source/Outposts/Deliver/LordToil_Drop.cs:26-28 | when both memos come in one tick, the job ends at exit-map in either graph |
| Deliver.IntendedAreaFullTick | Source/Outposts/Deliver/LordToil_Drop.cs:28 | in the intended graph a full area with pawns still carrying things sends the job to a new drop spot |
| Reloading.ShotsToFill | Source/MVCF/Reloading/Comps/VerbComp_Reloadable.cs:51 | the smaller of the shots the stack holds and the room in the magazine |
| Reloading.ShotsToFillBounds | Source/MVCF/Reloading/Comps/VerbComp_Reloadable.cs:45-51 | a reload never takes more items than the stack holds and never overfills a magazine that was not overfull |
| Reloading.UnloadedCountAsWritten | Source/MVCF/Reloading/Comps/VerbComp_Reloadable.cs:63-64 | as written, the unloaded stack holds one item per shot left |
| Reloading.UnloadedCount | Source/MVCF/Reloading/Comps/VerbComp_Reloadable.cs:63-64 | corrected: shots left times items per shot, which agrees with the written count only at one item per shot |
| Reloading.UnloadAsWrittenLosesAmmo | Source/MVCF/Reloading/Comps/VerbComp_Reloadable.cs:42-65 | as written, two items per shot, five shots and a stack of ten: the reload takes ten, the unload gives back five |
| Reloading.ReloadThenUnloadConserves | Source/MVCF/Reloading/Comps/VerbComp_Reloadable.cs:42-47 | corrected: what a reload takes plus what the magazine held comes back in full on unload |
| Reloading.Reloadable.Initialize | Source/MVCF/Reloading/Comps/VerbComp_Reloadable.cs:75-79 | full magazine when it starts loaded (so no reload needed), else empty |
| Reloading.Reloadable.CanReloadFrom | Source/MVCF/Reloading/Comps/VerbComp_Reloadable.cs:55-59 | false for no ammo, filtered-out ammo, or a stack below one shot; true otherwise |
| Reloading.Reloadable.ShotsToReload | Source/MVCF/Reloading/Comps/VerbComp_Reloadable.cs:51 | the shots ShotsToFill gives for the current magazine |
| Reloading.Reloadable.ReloadTicks | Source/MVCF/Reloading/Comps/VerbComp_Reloadable.cs:50 | 0 without ammo, else the per-shot time times the shots, in ticks |
| Reloading.Reloadable.NeedsReload | Source/MVCF/Reloading/Comps/VerbComp_Reloadable.cs:53 | holds exactly when the magazine is below its maximum |
| Reloading.Reloadable.Reload | Source/MVCF/Reloading/Comps/VerbComp_Reloadable.cs:42-48 | unusable ammo changes nothing and yields nothing; otherwise the shots are added, and the split of shots × items per shot either throws, exactly when the magazine was already full, leaving the stack whole, or gives a taken stack and a rest that add up to the stack, the magazine staying within its maximum |
| Reloading.SplitCountPositive | Source/MVCF/Reloading/Comps/VerbComp_Reloadable.cs:45-47 | from a stack holding at least one shot, the reload splits off a positive count exactly when the magazine has room |
| Reloading.Reloadable.Unload | Source/MVCF/Reloading/Comps/VerbComp_Reloadable.cs:61-68 | corrected: a stack of the filter's ammo holding the items the shots were loaded from, and the magazine is empty |
| Reloading.Reloadable.NotifyShotFired | Source/MVCF/Reloading/Comps/VerbComp_Reloadable.cs:81-86 | one shot fewer, with no lower bound |
| Reloading.Reloadable.CommandDisabled | Source/MVCF/Reloading/Comps/VerbComp_Reloadable.cs:95-102 | disabled exactly when the verb is not available for a full burst, and then naming the items a full reload takes |
| Reloading.Reloadable.Available | Source/MVCF/Reloading/Comps/VerbComp_Reloadable.cs:88 | enough shots for a whole burst, or for the rest of the burst under way, make the verb available; an empty magazine never fires a burst of at least one shot |

## Findings

| source | as written | input that shows it | evidently intended | confidence | as-written member | corrected member |
|---|---|---|---|---|---|---|
| Source/Outposts/Utils.cs:285-295 | the predicate passed to `FirstOrDefault` is the pawn-level check, which converts to true when the skill is reached, so the first MET requirement is reported as the failure | one required skill "Mining" 5 and pawns with summed Mining 10: founding is refused as not skilled enough; with summed Mining 0 the check passes | report the first requirement the pawns do NOT reach | high (not executed) | Rules.ThresholdAsWrittenInverted | Rules.CheckCumulativeSkillThreshold |
| Source/Outposts/Deliver/LordJob_Deliver.cs:40-42 | the drop → goto-drop-loc transition is triggered by the all-dropped memo, which the earlier drop → exit transition already takes; the area-full memo that `LordToil_Drop` sends triggers nothing | a drop toil that has passed 60 ticks with pawns still carrying items: area-full is sent every tick and the job stays in the drop toil | trigger drop → goto-drop-loc on the area-full memo | medium (not executed) | Deliver.AsBuiltNeverSeeksNewSpot | Deliver.IntendedSeeksNewSpot |
| Source/MVCF/Reloading/Comps/VerbComp_Reloadable.cs:63-65 | `Unload` makes a stack of `ShotsRemaining` items, while `Reload` took `ShotsRemaining × ItemsPerShot` items | ItemsPerShot 2, MaxShots 5, empty magazine, stack of 10: reload takes 10 items, unload returns 5 | unload `ShotsRemaining × ItemsPerShot` items | high (not executed) | Reloading.UnloadAsWrittenLosesAmmo | Reloading.ReloadThenUnloadConserves |
| Source/Outposts/OutpostExtension.cs:47-60 | `_RelevantSkills` walks each result option's `AmountsPerSkills` and `MinAmountsPerSkills` without a null guard, although `Amount` (line 74) treats a missing `AmountsPerSkills` as no terms | a result option that leaves out `AmountsPerSkills`: reading `RelevantSkills` throws NullReferenceException, and so does `IsCapable` (`Outpost.cs:885`) for every humanlike occupant with skills | a missing per-skill list counts as empty | medium (not executed) | Config.MissingSkillListThrows | Config.RelevantSkills |
| Source/Outposts/Outpost/Outpost_NeedsTracker.cs:53-56 | the occupant pass enumerates the live roster, and a death (`Notify_MemberDied`, `Outpost.cs:473`) takes the pawn off it mid-loop, so the next step of the enumeration throws InvalidOperationException | two occupants, the first killed by its health tick: it is reported dead and fed, then the pass throws, and the second is neither aged, rested nor fed | look after every pawn that was on the roster when the pass began | medium (not executed) | Needs.FirstDeathStopsPass | Outposts.Outpost.SatisfyOccupantNeeds |
| Source/Outposts/Outpost/Outpost.cs:894-897 | the loop removes stacks from the inventory while its lazy `Where` filter still enumerates it, so the next step throws InvalidOperationException after the first removal | an inventory holding a destroyed stack and then an empty stack: the destroyed one is removed, the pass throws, and the empty stack stays | remove every destroyed or empty stack | high (not executed) | OutpostLogic.HealthyAsWrittenLeavesSpoiled | Outposts.Outpost.CheckNoDestroyedOrNoStack |

For the corrected members:

- **Skill threshold.** `Rules.CanSpawnOnTile` uses the corrected check.
- **Delivery graph.** `Deliver.Lord` runs either graph. The intended one is
  `Deliver.CreateGraphIntended`.
- **Unload.** `Reloading.Reloadable.Unload` returns the corrected count.
- **Relevant skills.** `OutpostLogic.CapablePawns` uses `Config.RelevantSkills`. `Config.MissingListReadsAsEmpty` proves that it is the as-written collection with every missing list given as empty.
- **Occupant pass.** `Outposts.Outpost.SatisfyOccupantNeeds` runs the snapshot pass. `Needs.OccupantPassRoster` proves that it removes exactly the pawns it kills, and `Needs.OccupantPassAsWrittenAgrees` proves that it agrees with the source when nobody dies.
- **Housekeeping.** `Outposts.Outpost.CheckNoDestroyedOrNoStack` computes `OutpostLogic.Healthy`. `OutpostLogic.HealthySpec` proves that it is idempotent and that it keeps every unit of a stack that is not destroyed.

## Left out

- The user interface is not modelled: gizmos, float menus, dialogs, the settings window's drawing, and inspect strings. The outpost's packing and dev commands appear as `Outposts.Outpost.RunPackCommand` and the tracker methods. Letters, messages and error logs are entries in the outpost's effects log. Message text and translation are not modelled.
- The map-active raid resolution is not modelled: map removal, loot and map generation, which depend on host maps and randomness. The raid record holds a faction and points only.
- `OutpostLogic.ResolveRaidPoints`: the threat curves, the random point factor and local wealth are not modelled. The product of the curves, already multiplied by the random factor, is an input. Only the max, multiply and clamp step is modelled, over `real`.
- The health simulation is not modelled. The pawns the health tick kills are an input set, and a death is reported as the source does. Feeding and resting are log entries; food and rest levels do not change.
- Skill levels are inputs. A pawn's summed skill is taken from its skill list.
- Spatial delivery is not modelled: the teleport cell search, drop pods, pack-animal pawn generation and the goto-drop-loc toil. A delivery that leaves the outpost is a `Shipped` log entry with its route.
- `StripOccupant` moves a dead pawn's apparel and equipment into the inventory. It is not modelled. It is also a no-op here, because the pawn has already left the roster when it runs.
- The dead member's corpse is assumed to exist when it is added to the inventory.
- `Outposts.Outpost.AddPawn` leaves out several host steps: moving a pawn's owned items to other caravan members, `UnclaimAll`, and removing the pawn from the world pawns. None of these changes the outpost's state. The caravan's items sit in one flat list. A joining pawn is removed from the caravan. Removal from its other holders is only modelled for the roster.
- Stack merging by the host's containers is not modelled. Each added stack is kept as its own entry. `TakeItem(thing, count)` and `AddItem(thing, count)` split stacks and are not modelled.
- `RemoveAll` in the cost deduction is assumed to offer the stacks front to back, one at a time. Its removal predicate mutates the cost list as it goes.
- `Outposts.Outpost.RecachePawnTraits`: the source re-enters this method from inside `AddPawn` for each pawn. The model flattens that recursion into one pass that admits the pawns in order. A pawn the configuration rejects leaves the inventory and joins no one, as in the source. The roster's membership is the same as in the nested calls; the order of late joiners may differ.
- `Outposts.Outpost.ConvertToCaravan` omits the world selector and moves every stack of the inventory to the caravan. The source enumerates the inventory (through `Except`) while it hands each stack to the caravan. If the host's hand-over takes the stack out of the inventory, the list under the enumeration changes and the next step throws InvalidOperationException: only the first stack reaches the caravan, and the outpost is not destroyed. The host's container code is not part of this model, so the model follows the evident intent.
- `Outposts.Outpost.SatisfyOccupantNeeds` loops over a snapshot of the roster taken when the pass begins (Findings row 5). The source enumerates the live roster. A death takes the pawn off it, and the next step of the enumeration throws InvalidOperationException. The pawns after the first to die are then not looked after, and the exception leaves `Tick`. `Needs.OccupantPassAsWritten` states that outcome; the outpost's methods use the snapshot.
- `Outposts.Outpost.CheckNoDestroyedOrNoStack` removes every destroyed or empty stack in one filter (Findings row 6). The source removes the first such stack from under its lazy filter, whose next step then throws InvalidOperationException, so any later such stack stays. `OutpostLogic.HealthyAsWritten` states that outcome.
- `Config.RelevantSkills` reads a result option's missing per-skill list as empty (Findings row 4). As written, the collection throws NullReferenceException on it, which `Config.RelevantSkillsAsWritten` states.
- `OutpostLogic.CapablePawns` uses `Config.RelevantSkills`. As written, with a result option missing a per-skill list, it throws as soon as it checks a humanlike occupant with skills (`Outpost.cs:885`); the model returns the filtered roster.
- `Outposts.Outpost.Produce` inherits the same difference through the capable pawns: as written it throws where the model produces.
- `Outposts.Outpost.TotalSkill` inherits the same difference through the capable pawns: as written it throws where the model answers.
- `Config.LoadFromXml` parses an optional minus sign followed by decimal digits, with no bound. The host's integer parser also accepts surrounding white space and a leading plus sign, and throws on a value outside 32 bits. Those cases are not modelled.
- `Outposts.Outpost.RunPackCommand` requires an occupant before packing starts. The pack time is divided by the occupant count (`Outpost_PackingTracker.cs:18`), and an outpost is abandoned when its last occupant dies (`Outpost.cs:477-481`).
- `Outposts.Outpost.Produce`, `Outposts.Outpost.RecachePawnTraits`, `Outposts.Outpost.AddPawn`, `Outposts.Outpost.DockCaravan`, `Outposts.Outpost.TotalSkill`, `Outposts.Outpost.TickTrackers`, `PodArrival.AddToOutpost.RouteThings` and `PodArrival.AddToOutpost.Arrived` require the outpost to carry a configuration. An outpost without one never finishes spawning, because its settings initialisation dereferences it (`OutpostsMod.cs:94`).
- `Outposts.Outpost.Tick` requires a configuration. A caravan formed by packing on the same tick is not seen by that tick's needs pass.
- The outpost's inspect string and the other members that do not compile (`ticksTillPacked`, `raidFaction`, `RemovePawn`) are not modelled.
- `Outposts.Outpost.TotalSkill`: the host's def database is an input list of skill defs.
- `Outpost_VisitorTracker.Tick` has an empty body and is not modelled. `IsRestingAtOutpost` and `TryGetPawnCaravan` have no body in the source.
- Persistence (`ExposeData` and the saved raid-interval defaults) is not modelled.
- Harmony patches are not modelled.
- Reflection is replaced by an explicit list of the marked fields: `MinPawns`, `Range`, `TicksPerProduction` and `TicksToPack` on the configuration. Every marked field's attribute default is null. The outpost class marks no fields.
- A stored setting text that does not parse reads as 0.
- The value drawn on the settings page is an input.
- `ModRegistry.Registry.InitializeSettings` and `ModRegistry.Registry.WriteSettings` require every outpost to carry a configuration. The source dereferences it.
- `Reloading.Reloadable.Reload` requires a non-zero `ItemsPerShot`, because the source divides by it. `SplitOff` is modelled as the taken and remaining counts, and as the ArgumentException it throws for a count that is not positive. Its placement and the holder bookkeeping are not modelled.
- `Reloading.Reloadable.Unload` omits placing the stack next to the holder.
- The reload sound, the hunt-job ending on a shot fired, and the right-click options are not modelled.
- `Deliver.Lord`: the host's lord machinery is assumed to take the first registered transition that fires, and to reset the drop counter when the drop toil is entered. Pawn duties are not modelled.
- Float-valued multipliers are `real`. Single-precision rounding is not modelled.
