/** Pawn-level helpers of the outpost engine: text lines, turning an amount
    into item stacks, and cumulative skill checks. */
module Utils {
  import opened Common
  import opened Things

  /** An optional line of text: empty when hidden or empty, otherwise the
      text on a new line. */
  function Line(input: string, show: bool): (r: string)
    ensures r == "" <==> !show || input == ""
    ensures r != "" ==> r[0] == '\n' && r[1..] == input
  {
    if !show || input == "" then "" else "\n" + input
  }

  // ---------------------------------------------------------------------
  // Item stacks.

  /** One freshly made stack of a def. */
  function Stack(def: ThingDef, count: int): (t: Thing)
    ensures t.def == def && t.stackCount == count && t.kind == ItemKind && !t.destroyed
  {
    Thing(def, count, def.maxHitPoints, false, ItemKind)
  }

  /** The stacks an amount becomes: as many full stacks as the truncated
      quotient says, then one stack holding the remainder, even when the
      remainder is zero. */
  function MadeStacks(def: ThingDef, count: int): (s: seq<Thing>)
    requires def.stackLimit > 0
  {
    var full := TruncDiv(count, def.stackLimit);
    seq(if full < 0 then 0 else full, _ => Stack(def, def.stackLimit))
      + [Stack(def, TruncMod(count, def.stackLimit))]
  }

  /** Makes the stacks one by one, as the host's generator yields them. */
  method MakeResults(def: ThingDef, count: int) returns (stacks: seq<Thing>)
    requires def.stackLimit > 0
    ensures stacks == MadeStacks(def, count)
  {
    var stackCount := TruncDiv(count, def.stackLimit);
    var remainder := TruncMod(count, def.stackLimit);
    stacks := [];
    var i := 0;
    while i < stackCount
      invariant 0 <= i && (stackCount >= 0 ==> i <= stackCount)
      invariant stackCount < 0 ==> i == 0
      invariant stacks == seq(i, _ => Stack(def, def.stackLimit))
    {
      stacks := stacks + [Stack(def, def.stackLimit)];
      i := i + 1;
    }
    stacks := stacks + [Stack(def, remainder)];
  }

  lemma {:induction false} FullStacksTotal(def: ThingDef, n: nat)
    ensures TotalCount(seq(n, _ => Stack(def, def.stackLimit))) == n * def.stackLimit
  {
    if n > 0 {
      var s := seq(n, _ => Stack(def, def.stackLimit));
      assert s[1..] == seq(n - 1, _ => Stack(def, def.stackLimit));
      FullStacksTotal(def, n - 1);
    }
  }

  /** A non-negative amount is made into stacks that hold exactly that
      amount, each within the stack limit, the last one below it. */
  lemma MadeStacksConserve(def: ThingDef, count: int)
    requires def.stackLimit > 0 && count >= 0
    ensures TotalCount(MadeStacks(def, count)) == count
    ensures forall i :: 0 <= i < |MadeStacks(def, count)| ==>
              MadeStacks(def, count)[i].def == def &&
              0 <= MadeStacks(def, count)[i].stackCount <= def.stackLimit
    ensures Last(MadeStacks(def, count)).stackCount < def.stackLimit
    ensures |MadeStacks(def, count)| == count / def.stackLimit + 1
  {
    var q := count / def.stackLimit;
    var full := seq(q, _ => Stack(def, def.stackLimit));
    var s := MadeStacks(def, count);
    assert s == full + [Stack(def, count % def.stackLimit)];
    TotalCountAppend(full, [Stack(def, count % def.stackLimit)]);
    FullStacksTotal(def, q);
  }

  /** A negative amount becomes a single stack with the truncated remainder. */
  lemma MadeStacksNegative(def: ThingDef, count: int)
    requires def.stackLimit > 0 && count < 0
    ensures |MadeStacks(def, count)| == 1
    ensures MadeStacks(def, count)[0].stackCount == -((-count) % def.stackLimit)
  {
  }

  function Last<T>(s: seq<T>): T
    requires |s| > 0
  {
    s[|s| - 1]
  }

  // ---------------------------------------------------------------------
  // Skills.

  predicate AllHaveSkills(pawns: seq<Pawn>) {
    forall i :: 0 <= i < |pawns| ==> pawns[i].skills.Some?
  }

  /** A pawn's level in a skill; a skill the tracker does not list counts as 0. */
  function LevelOf(p: Pawn, skill: SkillDef): int
    requires p.skills.Some?
  {
    if skill in p.skills.value then p.skills.value[skill].level else 0
  }

  /** The summed level of a group of pawns in one skill. */
  function GetCumulativeSkill(pawns: seq<Pawn>, skill: SkillDef): int
    requires AllHaveSkills(pawns)
  {
    if pawns == [] then 0 else LevelOf(pawns[0], skill) + GetCumulativeSkill(pawns[1..], skill)
  }

  lemma {:induction false} CumulativeSkillAppend(a: seq<Pawn>, b: seq<Pawn>, skill: SkillDef)
    requires AllHaveSkills(a) && AllHaveSkills(b)
    ensures AllHaveSkills(a + b)
    ensures GetCumulativeSkill(a + b, skill) == GetCumulativeSkill(a, skill) + GetCumulativeSkill(b, skill)
  {
    if a == [] {
      assert a + b == b;
    } else {
      assert (a + b)[0] == a[0] && (a + b)[1..] == a[1..] + b;
      CumulativeSkillAppend(a[1..], b, skill);
    }
  }

  /** The order in which pawns are listed does not change their summed skill. */
  lemma {:induction false} CumulativeSkillPermutation(a: seq<Pawn>, b: seq<Pawn>, skill: SkillDef)
    requires AllHaveSkills(a) && multiset(a) == multiset(b)
    ensures AllHaveSkills(b)
    ensures GetCumulativeSkill(a, skill) == GetCumulativeSkill(b, skill)
    decreases |a|
  {
    forall i | 0 <= i < |b|
      ensures b[i].skills.Some?
    {
      assert b[i] in multiset(a);
    }
    if a != [] {
      assert a[0] in multiset(b);
      var j :| 0 <= j < |b| && b[j] == a[0];
      var rest := b[..j] + b[j + 1..];
      RemoveOneMultiset(a, b, j);
      CumulativeSkillPermutation(a[1..], rest, skill);
      CumulativeSkillRemoveAt(b, j, skill);
    }
  }

  lemma RemoveOneMultiset<T>(a: seq<T>, b: seq<T>, j: int)
    requires multiset(a) == multiset(b) && a != [] && 0 <= j < |b| && b[j] == a[0]
    ensures multiset(a[1..]) == multiset(b[..j] + b[j + 1..])
  {
    assert a == [a[0]] + a[1..];
    assert b == b[..j] + [b[j]] + b[j + 1..];
    assert multiset(a[1..]) == multiset(a) - multiset{a[0]};
  }

  lemma CumulativeSkillRemoveAt(b: seq<Pawn>, j: int, skill: SkillDef)
    requires AllHaveSkills(b) && 0 <= j < |b|
    ensures AllHaveSkills(b[..j] + b[j + 1..])
    ensures GetCumulativeSkill(b, skill)
         == LevelOf(b[j], skill) + GetCumulativeSkill(b[..j] + b[j + 1..], skill)
  {
    assert b == b[..j] + ([b[j]] + b[j + 1..]);
    CumulativeSkillAppend(b[..j], [b[j]] + b[j + 1..], skill);
    assert ([b[j]] + b[j + 1..])[1..] == b[j + 1..];
    CumulativeSkillAppend(b[..j], b[j + 1..], skill);
  }

  /** Adding pawns whose levels are not negative never lowers the sum. */
  lemma {:induction false} CumulativeSkillMonotone(a: seq<Pawn>, b: seq<Pawn>, skill: SkillDef)
    requires AllHaveSkills(a) && AllHaveSkills(b)
    requires forall i :: 0 <= i < |b| ==> LevelOf(b[i], skill) >= 0
    ensures AllHaveSkills(a + b)
    ensures GetCumulativeSkill(a + b, skill) >= GetCumulativeSkill(a, skill)
  {
    CumulativeSkillAppend(a, b, skill);
    NonNegativeSum(b, skill);
  }

  lemma {:induction false} NonNegativeSum(b: seq<Pawn>, skill: SkillDef)
    requires AllHaveSkills(b)
    requires forall i :: 0 <= i < |b| ==> LevelOf(b[i], skill) >= 0
    ensures GetCumulativeSkill(b, skill) >= 0
  {
    if b != [] {
      NonNegativeSum(b[1..], skill);
    }
  }

  function NotSkilledEnough(skill: SkillDef, threshold: int): Reason {
    Reason("Outposts.NotSkilledEnough", [skill, IntToString(threshold)])
  }

  /** Whether a group of pawns together reaches a skill threshold; the
      rejection names the skill and the threshold. */
  function CheckPawnsSkillThreshold(pawns: seq<Pawn>, skill: SkillDef, threshold: int): (r: Report)
    requires AllHaveSkills(pawns)
    ensures r.accepted <==> GetCumulativeSkill(pawns, skill) >= threshold
    ensures r.accepted ==> r.reason.None?
    ensures !r.accepted ==> r.reason == Some(NotSkilledEnough(skill, threshold))
  {
    if GetCumulativeSkill(pawns, skill) < threshold then Reject(NotSkilledEnough(skill, threshold))
    else Accept
  }
}
