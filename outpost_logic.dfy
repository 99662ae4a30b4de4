/** The value-level rules of the outpost aggregate: paying the one-time
    construction cost out of absorbed stacks, grouping a delivery for its
    letter, admitting pawns found in the inventory, the capability filter,
    the goods an outpost produces, and the final clamp of raid points. */
module OutpostLogic {
  import opened Common
  import opened Things
  import opened Utils
  import opened Config
  import opened Rules
  import opened Settings

  function Min(a: int, b: int): int { if a <= b then a else b }
  function Max(a: int, b: int): int { if a >= b then a else b }

  // ---------------------------------------------------------------------
  // Lists of definition counts (costs, and the delivery letter's totals).

  /** The index of the first entry for a definition. */
  function FindDef(costs: seq<Cost>, d: ThingDef): (r: Option<nat>)
    ensures r.Some? ==> r.value < |costs| && costs[r.value].def == d
    ensures r.Some? ==> forall k :: 0 <= k < r.value ==> costs[k].def != d
    ensures r.None? ==> forall k :: 0 <= k < |costs| ==> costs[k].def != d
  {
    if costs == [] then None
    else if costs[0].def == d then Some(0)
    else match FindDef(costs[1..], d)
      case None => None
      case Some(k) => Some(k + 1)
  }

  /** The count of the first entry for a definition, 0 without one. */
  function CostFor(costs: seq<Cost>, d: ThingDef): int {
    match FindDef(costs, d)
    case None => 0
    case Some(k) => costs[k].count
  }

  predicate UniqueDefs(costs: seq<Cost>) {
    forall i, j :: 0 <= i < j < |costs| ==> costs[i].def != costs[j].def
  }

  predicate PositiveCounts(costs: seq<Cost>) {
    forall k :: 0 <= k < |costs| ==> costs[k].count > 0
  }

  predicate NonNegativeStacks(s: seq<Thing>) {
    forall i :: 0 <= i < |s| ==> s[i].stackCount >= 0
  }

  function RemoveAt(costs: seq<Cost>, k: nat): (r: seq<Cost>)
    requires k < |costs|
    ensures |r| == |costs| - 1
    ensures forall i :: 0 <= i < k ==> r[i] == costs[i]
    ensures forall i :: k <= i < |r| ==> r[i] == costs[i + 1]
  {
    costs[..k] + costs[k + 1..]
  }

  /** With one entry per definition, an entry's count is the count for its
      definition. */
  lemma CostForAt(costs: seq<Cost>, k: nat)
    requires UniqueDefs(costs) && k < |costs|
    ensures FindDef(costs, costs[k].def) == Some(k)
    ensures CostFor(costs, costs[k].def) == costs[k].count
  {
    var r := FindDef(costs, costs[k].def);
    assert r.Some?;
  }

  lemma CostForRemoveAt(costs: seq<Cost>, k: nat, d: ThingDef)
    requires UniqueDefs(costs) && k < |costs|
    ensures UniqueDefs(RemoveAt(costs, k))
    ensures CostFor(RemoveAt(costs, k), d) == if d == costs[k].def then 0 else CostFor(costs, d)
  {
    var r := RemoveAt(costs, k);
    assert UniqueDefs(r) by {
      forall i, j | 0 <= i < j < |r| ensures r[i].def != r[j].def {
        var i' := if i < k then i else i + 1;
        var j' := if j < k then j else j + 1;
        assert r[i] == costs[i'] && r[j] == costs[j'] && i' < j';
      }
    }
    match FindDef(r, d)
    case None =>
      forall m | 0 <= m < |costs| && m != k ensures costs[m].def != d {
        if m < k { assert r[m] == costs[m]; } else { assert r[m - 1] == costs[m]; }
      }
    case Some(j) =>
      var j' := if j < k then j else j + 1;
      assert r[j] == costs[j'];
      CostForAt(costs, j');
      CostForAt(r, j);
      assert j' != k;
  }

  lemma CostForUpdate(costs: seq<Cost>, k: nat, n: int, d: ThingDef)
    requires UniqueDefs(costs) && k < |costs|
    ensures UniqueDefs(costs[k := Cost(costs[k].def, n)])
    ensures CostFor(costs[k := Cost(costs[k].def, n)], d) == if d == costs[k].def then n else CostFor(costs, d)
  {
    var u := costs[k := Cost(costs[k].def, n)];
    assert forall i :: 0 <= i < |u| ==> u[i].def == costs[i].def;
    if d == costs[k].def {
      CostForAt(u, k);
    } else {
      match FindDef(costs, d)
      case None =>
        assert FindDef(u, d).None?;
      case Some(m) =>
        CostForAt(costs, m);
        CostForAt(u, m);
    }
  }

  // ---------------------------------------------------------------------
  // The construction cost, paid out of absorbed stacks.

  /** The deduction seeing one stack: the stack as it stays in the
      inventory (None when it is removed whole) and the costs still owed.
      A cost larger than the stack takes the stack and shrinks; a smaller
      one shrinks the stack and is settled; an equal one takes the stack
      and is settled. */
  function DeductStep(t: Thing, costs: seq<Cost>): (r: (Option<Thing>, seq<Cost>))
    ensures r.0.Some? ==> r.0.value.def == t.def && r.0.value.kind == t.kind
  {
    match FindDef(costs, t.def)
    case None => (Some(t), costs)
    case Some(k) =>
      if costs[k].count > t.stackCount then
        (None, costs[k := Cost(t.def, costs[k].count - t.stackCount)])
      else if costs[k].count < t.stackCount then
        (Some(t.(stackCount := t.stackCount - costs[k].count)), RemoveAt(costs, k))
      else
        (None, RemoveAt(costs, k))
  }

  /** The deduction walking the stacks front to back: the stacks that stay
      and the costs still owed at the end. */
  function Deduct(inv: seq<Thing>, costs: seq<Cost>): (r: (seq<Thing>, seq<Cost>))
    ensures |r.0| <= |inv|
  {
    if inv == [] then ([], costs)
    else
      var step := DeductStep(inv[0], costs);
      var rest := Deduct(inv[1..], step.1);
      ((if step.0.Some? then [step.0.value] else []) + rest.0, rest.1)
  }

  lemma CountOfDefNonNegative(s: seq<Thing>, d: ThingDef)
    requires NonNegativeStacks(s)
    ensures CountOfDef(s, d) >= 0
  {
    if s != [] {
      CountOfDefNonNegative(s[1..], d);
    }
  }

  /** One step keeps one entry per definition, each still owing something. */
  lemma DeductStepWellFormed(t: Thing, costs: seq<Cost>)
    requires UniqueDefs(costs) && PositiveCounts(costs)
    ensures UniqueDefs(DeductStep(t, costs).1) && PositiveCounts(DeductStep(t, costs).1)
  {
    match FindDef(costs, t.def)
    case None =>
    case Some(k) =>
      var c := costs[k].count;
      if c > t.stackCount {
        CostForUpdate(costs, k, c - t.stackCount, t.def);
        var u := costs[k := Cost(t.def, c - t.stackCount)];
        assert PositiveCounts(u) by {
          forall i | 0 <= i < |u| ensures u[i].count > 0 {
            if i != k { assert u[i] == costs[i]; }
          }
        }
      } else {
        CostForRemoveAt(costs, k, t.def);
        var r := RemoveAt(costs, k);
        assert PositiveCounts(r) by {
          forall i | 0 <= i < |r| ensures r[i].count > 0 {
            if i < k { assert r[i] == costs[i]; } else { assert r[i] == costs[i + 1]; }
          }
        }
      }
  }

  /** One step takes min(owed, stack) units of the stack's definition and
      lowers what is owed for it by as much. */
  lemma DeductStepPerDef(t: Thing, costs: seq<Cost>, d: ThingDef)
    requires UniqueDefs(costs) && PositiveCounts(costs) && t.stackCount >= 0
    ensures var r := DeductStep(t, costs);
      var held := if t.def == d then t.stackCount else 0;
      var kept := if r.0.Some? && r.0.value.def == d then r.0.value.stackCount else 0;
      kept == held - Min(CostFor(costs, d), held) &&
      CostFor(r.1, d) == CostFor(costs, d) - Min(CostFor(costs, d), held)
  {
    match FindDef(costs, t.def)
    case None =>
      if t.def == d {
        assert CostFor(costs, d) == 0;
      }
    case Some(k) =>
      CostForAt(costs, k);
      var c := costs[k].count;
      if c > t.stackCount {
        CostForUpdate(costs, k, c - t.stackCount, d);
      } else {
        CostForRemoveAt(costs, k, d);
      }
  }

  /** The whole deduction keeps one entry per definition, each still owing
      something. */
  lemma {:induction false} DeductWellFormed(inv: seq<Thing>, costs: seq<Cost>)
    requires UniqueDefs(costs) && PositiveCounts(costs)
    ensures UniqueDefs(Deduct(inv, costs).1) && PositiveCounts(Deduct(inv, costs).1)
  {
    if inv != [] {
      DeductStepWellFormed(inv[0], costs);
      DeductWellFormed(inv[1..], DeductStep(inv[0], costs).1);
    }
  }

  /** For every definition, the deduction removes exactly min(owed, held)
      units and owes max(owed - held, 0) afterwards. */
  lemma {:induction false} DeductPerDef(inv: seq<Thing>, costs: seq<Cost>, d: ThingDef)
    requires UniqueDefs(costs) && PositiveCounts(costs) && NonNegativeStacks(inv)
    ensures CountOfDef(Deduct(inv, costs).0, d)
         == CountOfDef(inv, d) - Min(CostFor(costs, d), CountOfDef(inv, d))
    ensures CostFor(Deduct(inv, costs).1, d) == Max(CostFor(costs, d) - CountOfDef(inv, d), 0)
  {
    if inv != [] {
      var t := inv[0];
      var step := DeductStep(t, costs);
      DeductStepWellFormed(t, costs);
      DeductStepPerDef(t, costs, d);
      DeductPerDef(inv[1..], step.1, d);
      CountOfDefNonNegative(inv[1..], d);
      DeductConsCount(inv, costs, d);
      DeductArith(CostFor(costs, d), if t.def == d then t.stackCount else 0, CountOfDef(inv[1..], d));
    }
  }

  /** One level of the deduction, counted for one definition. */
  lemma DeductConsCount(inv: seq<Thing>, costs: seq<Cost>, d: ThingDef)
    requires inv != []
    ensures var step := DeductStep(inv[0], costs);
            var kept := if step.0.Some? && step.0.value.def == d then step.0.value.stackCount else 0;
            CountOfDef(Deduct(inv, costs).0, d) == kept + CountOfDef(Deduct(inv[1..], step.1).0, d) &&
            Deduct(inv, costs).1 == Deduct(inv[1..], step.1).1 &&
            CountOfDef(inv, d) == (if inv[0].def == d then inv[0].stackCount else 0) + CountOfDef(inv[1..], d)
  {
    var step := DeductStep(inv[0], costs);
    var rest := Deduct(inv[1..], step.1);
    var head := if step.0.Some? then [step.0.value] else [];
    assert Deduct(inv, costs).0 == head + rest.0;
    CountOfDefAppend(head, rest.0, d);
  }

  /** The arithmetic of one deduction step followed by the rest. */
  lemma DeductArith(owed: int, held: int, later: int)
    requires held >= 0 && later >= 0
    ensures var kept := held - Min(owed, held);
            var owed1 := owed - Min(owed, held);
            kept + (later - Min(owed1, later)) == held + later - Min(owed, held + later) &&
            Max(owed1 - later, 0) == Max(owed - (held + later), 0)
  {
  }

  /** The cost is settled in full exactly when every entry was covered by
      the units of its definition held. */
  lemma DeductSettlesIff(inv: seq<Thing>, costs: seq<Cost>)
    requires UniqueDefs(costs) && PositiveCounts(costs) && NonNegativeStacks(inv)
    ensures Deduct(inv, costs).1 == [] <==>
              forall k :: 0 <= k < |costs| ==> costs[k].count <= CountOfDef(inv, costs[k].def)
  {
    if Deduct(inv, costs).1 == [] {
      forall k | 0 <= k < |costs| ensures costs[k].count <= CountOfDef(inv, costs[k].def) {
        SettledEntryCovered(inv, costs, k);
      }
    } else {
      var k := UnsettledEntry(inv, costs);
    }
  }

  lemma SettledEntryCovered(inv: seq<Thing>, costs: seq<Cost>, k: nat)
    requires UniqueDefs(costs) && PositiveCounts(costs) && NonNegativeStacks(inv)
    requires Deduct(inv, costs).1 == [] && k < |costs|
    ensures costs[k].count <= CountOfDef(inv, costs[k].def)
  {
    var d := costs[k].def;
    DeductPerDef(inv, costs, d);
    CostForAt(costs, k);
    assert CostFor([], d) == 0;
  }

  lemma UnsettledEntry(inv: seq<Thing>, costs: seq<Cost>) returns (k: nat)
    requires UniqueDefs(costs) && PositiveCounts(costs) && NonNegativeStacks(inv)
    requires Deduct(inv, costs).1 != []
    ensures k < |costs| && costs[k].count > CountOfDef(inv, costs[k].def)
  {
    var left := Deduct(inv, costs).1;
    DeductWellFormed(inv, costs);
    var e := left[0].def;
    DeductPerDef(inv, costs, e);
    CountOfDefNonNegative(inv, e);
    CostForAt(left, 0);
    match FindDef(costs, e)
    case None =>
      assert false;
    case Some(j) =>
      CostForAt(costs, j);
      k := j;
  }

  /** The stacks of one definition, in order. */
  function OfDef(s: seq<Thing>, d: ThingDef): (r: seq<Thing>)
    ensures forall i :: 0 <= i < |r| ==> r[i].def == d
  {
    if s == [] then []
    else (if s[0].def == d then [s[0]] else []) + OfDef(s[1..], d)
  }

  /** Stacks of a definition the cost does not name are left exactly as
      they were, in the same order. */
  lemma {:induction false} DeductLeavesOtherDefs(inv: seq<Thing>, costs: seq<Cost>, d: ThingDef)
    requires forall k :: 0 <= k < |costs| ==> costs[k].def != d
    ensures OfDef(Deduct(inv, costs).0, d) == OfDef(inv, d)
  {
    if inv != [] {
      var t := inv[0];
      var step := DeductStep(t, costs);
      assert forall k :: 0 <= k < |step.1| ==> step.1[k].def != d by {
        match FindDef(costs, t.def)
        case None =>
        case Some(k) =>
          if costs[k].count > t.stackCount {
            assert forall i :: 0 <= i < |step.1| ==> step.1[i].def == costs[i].def;
          } else {
            assert forall i :: 0 <= i < |step.1| ==> step.1[i].def == costs[if i < k then i else i + 1].def;
          }
      }
      DeductLeavesOtherDefs(inv[1..], step.1, d);
      var rest := Deduct(inv[1..], step.1);
      if step.0.Some? {
        var l := [step.0.value] + rest.0;
        assert l[0] == step.0.value && l[1..] == rest.0;
        if t.def == d {
          assert FindDef(costs, t.def).None?;
        }
      } else {
        assert [] + rest.0 == rest.0;
        assert FindDef(costs, t.def).Some?;
      }
    }
  }

  // ---------------------------------------------------------------------
  // The delivery letter: stacks listed one by one, and totals per definition.

  /** A stack the letter lists on its own: one made from stuff, a damaged
      one, or one with a quality. */
  predicate IsSingle(t: Thing) {
    t.def.madeFromStuff || (t.def.useHitPoints && t.hitPoints < t.def.maxHitPoints) || t.def.hasQuality
  }

  /** Adds a stack to the per-definition totals, opening an entry for a
      definition seen for the first time. */
  function AddToCounts(counts: seq<Cost>, t: Thing): seq<Cost> {
    match FindDef(counts, t.def)
    case None => counts + [Cost(t.def, t.stackCount)]
    case Some(k) => counts[k := Cost(t.def, counts[k].count + t.stackCount)]
  }

  /** The letter's two lists for a delivery, built stack by stack. */
  function Manifest(things: seq<Thing>): (r: (seq<Thing>, seq<Cost>))
    decreases |things|
  {
    if things == [] then ([], [])
    else
      var prev := Manifest(things[..|things| - 1]);
      var t := things[|things| - 1];
      if IsSingle(t) then (prev.0 + [t], prev.1) else (prev.0, AddToCounts(prev.1, t))
  }

  /** The stacks listed one by one, in order. */
  function SinglesOf(things: seq<Thing>): (r: seq<Thing>)
    ensures forall i :: 0 <= i < |r| ==> r[i] in things && IsSingle(r[i])
    ensures forall i :: 0 <= i < |things| && IsSingle(things[i]) ==> things[i] in r
  {
    if things == [] then []
    else (if IsSingle(things[0]) then [things[0]] else []) + SinglesOf(things[1..])
  }

  lemma {:induction false} SinglesOfSnoc(s: seq<Thing>, t: Thing)
    ensures SinglesOf(s + [t]) == SinglesOf(s) + (if IsSingle(t) then [t] else [])
  {
    if s == [] {
      assert [] + [t] == [t] && [t][1..] == [];
    } else {
      assert (s + [t])[0] == s[0] && (s + [t])[1..] == s[1..] + [t];
      SinglesOfSnoc(s[1..], t);
    }
  }

  /** Units of a definition that the letter groups: all its stacks that are
      not listed on their own. */
  function GroupedTotal(things: seq<Thing>, d: ThingDef): int
    decreases |things|
  {
    if things == [] then 0
    else
      var t := things[|things| - 1];
      GroupedTotal(things[..|things| - 1], d) + (if !IsSingle(t) && t.def == d then t.stackCount else 0)
  }

  predicate Grouped(things: seq<Thing>, d: ThingDef) {
    exists i :: 0 <= i < |things| && !IsSingle(things[i]) && things[i].def == d
  }

  /** Adding a stack to the totals keeps one entry per definition, opens
      an entry only for the stack's own definition, and adds the stack's
      count to that definition's total and to no other. */
  lemma AddToCountsSpec(counts: seq<Cost>, t: Thing, d: ThingDef)
    requires UniqueDefs(counts)
    ensures UniqueDefs(AddToCounts(counts, t))
    ensures FindDef(AddToCounts(counts, t), d).Some? <==> FindDef(counts, d).Some? || t.def == d
    ensures CostFor(AddToCounts(counts, t), d) == CostFor(counts, d) + (if t.def == d then t.stackCount else 0)
  {
    match FindDef(counts, t.def)
    case None => AddToCountsNew(counts, t, d);
    case Some(k) => AddToCountsExisting(counts, t, d, k);
  }

  lemma AddToCountsNew(counts: seq<Cost>, t: Thing, d: ThingDef)
    requires UniqueDefs(counts) && FindDef(counts, t.def).None?
    ensures var c := counts + [Cost(t.def, t.stackCount)];
            UniqueDefs(c) &&
            (FindDef(c, d).Some? <==> FindDef(counts, d).Some? || t.def == d) &&
            CostFor(c, d) == CostFor(counts, d) + (if t.def == d then t.stackCount else 0)
  {
    var c := counts + [Cost(t.def, t.stackCount)];
    assert UniqueDefs(c);
    if d == t.def {
      CostForAt(c, |counts|);
    } else {
      assert FindDef(c, d) == FindDef(counts, d) by {
        match FindDef(counts, d)
        case None =>
        case Some(k) => CostForAt(counts, k); CostForAt(c, k);
      }
    }
  }

  lemma AddToCountsExisting(counts: seq<Cost>, t: Thing, d: ThingDef, k: nat)
    requires UniqueDefs(counts) && FindDef(counts, t.def) == Some(k)
    ensures var c := counts[k := Cost(t.def, counts[k].count + t.stackCount)];
            UniqueDefs(c) &&
            (FindDef(c, d).Some? <==> FindDef(counts, d).Some? || t.def == d) &&
            CostFor(c, d) == CostFor(counts, d) + (if t.def == d then t.stackCount else 0)
  {
    CostForUpdate(counts, k, counts[k].count + t.stackCount, d);
    CostForAt(counts, k);
    var c := counts[k := Cost(t.def, counts[k].count + t.stackCount)];
    assert forall i :: 0 <= i < |c| ==> c[i].def == counts[i].def;
    assert FindDef(c, d).Some? <==> FindDef(counts, d).Some?;
  }

  lemma GroupedSnoc(init: seq<Thing>, t: Thing, d: ThingDef)
    ensures Grouped(init + [t], d) <==> Grouped(init, d) || (!IsSingle(t) && t.def == d)
  {
    var things := init + [t];
    if Grouped(things, d) {
      var i :| 0 <= i < |things| && !IsSingle(things[i]) && things[i].def == d;
      if i < |init| { assert things[i] == init[i]; }
    }
    if Grouped(init, d) {
      var i :| 0 <= i < |init| && !IsSingle(init[i]) && init[i].def == d;
      assert things[i] == init[i];
    }
    if !IsSingle(t) && t.def == d {
      assert things[|init|] == t;
    }
  }

  /** The letter lists exactly the single stacks, in order, and has one
      entry per grouped definition holding the sum of its stack counts. */
  lemma {:induction false} ManifestGroups(things: seq<Thing>, d: ThingDef)
    ensures Manifest(things).0 == SinglesOf(things)
    ensures UniqueDefs(Manifest(things).1)
    ensures FindDef(Manifest(things).1, d).Some? <==> Grouped(things, d)
    ensures CostFor(Manifest(things).1, d) == GroupedTotal(things, d)
    decreases |things|
  {
    if things != [] {
      var init := things[..|things| - 1];
      var t := things[|things| - 1];
      assert things == init + [t];
      ManifestGroups(init, d);
      SinglesOfSnoc(init, t);
      GroupedSnoc(init, t, d);
      if !IsSingle(t) {
        AddToCountsSpec(Manifest(init).1, t, d);
      }
    }
  }

  function SumCounts(counts: seq<Cost>): int {
    if counts == [] then 0 else counts[0].count + SumCounts(counts[1..])
  }

  lemma {:induction false} SumCountsSnoc(counts: seq<Cost>, c: Cost)
    ensures SumCounts(counts + [c]) == SumCounts(counts) + c.count
  {
    if counts == [] {
      assert [] + [c] == [c] && [c][1..] == [];
    } else {
      assert (counts + [c])[0] == counts[0] && (counts + [c])[1..] == counts[1..] + [c];
      SumCountsSnoc(counts[1..], c);
    }
  }

  lemma {:induction false} SumCountsUpdate(counts: seq<Cost>, k: nat, c: Cost)
    requires k < |counts|
    ensures SumCounts(counts[k := c]) == SumCounts(counts) - counts[k].count + c.count
  {
    if k > 0 {
      assert counts[k := c][1..] == counts[1..][k - 1 := c];
      SumCountsUpdate(counts[1..], k - 1, c);
    }
  }

  /** The letter accounts for every unit delivered: the single stacks and
      the grouped totals together hold as many units as the delivery. */
  lemma {:induction false} ManifestConserves(things: seq<Thing>)
    ensures TotalCount(Manifest(things).0) + SumCounts(Manifest(things).1) == TotalCount(things)
    decreases |things|
  {
    if things != [] {
      var init := things[..|things| - 1];
      var t := things[|things| - 1];
      assert things == init + [t];
      ManifestConserves(init);
      TotalCountAppend(init, [t]);
      assert TotalCount([t]) == t.stackCount;
      var m := Manifest(init);
      if IsSingle(t) {
        TotalCountAppend(m.0, [t]);
      } else {
        match FindDef(m.1, t.def)
        case None => SumCountsSnoc(m.1, Cost(t.def, t.stackCount));
        case Some(k) => SumCountsUpdate(m.1, k, Cost(t.def, m.1[k].count + t.stackCount));
      }
    }
  }

  // ---------------------------------------------------------------------
  // Admission of the pawns found in the inventory.

  /** The roster after offering it pawns one at a time: an accepted pawn
      leaves whatever place it held in the roster and joins at the end. */
  function Admit(ext: OutpostExtension, roster: seq<Pawn>, pawns: seq<Pawn>): (r: seq<Pawn>)
    decreases |pawns|
  {
    if pawns == [] then roster
    else
      var prev := Admit(ext, roster, pawns[..|pawns| - 1]);
      var p := pawns[|pawns| - 1];
      if CanAddPawn(ext, p).accepted then Without(prev, p) + [p] else prev
  }

  lemma WithoutMember(ps: seq<Pawn>, p: Pawn, q: Pawn)
    ensures q in Without(ps, p) <==> q in ps && q != p
  {
    if q in ps && q != p {
      var i :| 0 <= i < |ps| && ps[i] == q;
    }
  }

  /** Admission keeps the roster free of repeats. */
  lemma {:induction false} AdmitNoDups(ext: OutpostExtension, roster: seq<Pawn>, pawns: seq<Pawn>)
    requires NoDups(roster)
    ensures NoDups(Admit(ext, roster, pawns))
    decreases |pawns|
  {
    if pawns != [] {
      var init := pawns[..|pawns| - 1];
      var p := pawns[|pawns| - 1];
      AdmitNoDups(ext, roster, init);
      var prev := Admit(ext, roster, init);
      if CanAddPawn(ext, p).accepted {
        WithoutNoDups(prev, p);
        NoDupsSnoc(Without(prev, p), p);
      }
    }
  }

  /** Admission keeps everyone already on the roster and adds exactly the
      accepted pawns. */
  lemma {:induction false} AdmitMember(ext: OutpostExtension, roster: seq<Pawn>, pawns: seq<Pawn>, q: Pawn)
    ensures q in Admit(ext, roster, pawns) <==> q in roster || (q in pawns && CanAddPawn(ext, q).accepted)
    decreases |pawns|
  {
    if pawns != [] {
      var init := pawns[..|pawns| - 1];
      var p := pawns[|pawns| - 1];
      assert pawns == init + [p];
      AdmitMember(ext, roster, init, q);
      var prev := Admit(ext, roster, init);
      if CanAddPawn(ext, p).accepted {
        WithoutMember(prev, p, q);
      }
      assert q in pawns <==> q in init || q == p;
    }
  }

  lemma NoDupsSnoc(ps: seq<Pawn>, p: Pawn)
    requires NoDups(ps) && p !in ps
    ensures NoDups(ps + [p])
  {
    var r := ps + [p];
    forall i, j | 0 <= i < j < |r| ensures r[i] != r[j] {
      if j == |ps| { assert r[i] == ps[i]; }
    }
  }

  /** Removes the first stack that is a pawn (the pawn the admission loop
      is looking at). */
  function DropFirstPawn(s: seq<Thing>): (r: seq<Thing>)
  {
    if s == [] then []
    else if s[0].kind.PawnKind? then s[1..]
    else [s[0]] + DropFirstPawn(s[1..])
  }

  lemma {:induction false} DropFirstPawnSpec(s: seq<Thing>)
    requires PawnsIn(s) != []
    ensures PawnsIn(DropFirstPawn(s)) == PawnsIn(s)[1..]
    ensures NonPawnThings(DropFirstPawn(s)) == NonPawnThings(s)
  {
    if !s[0].kind.PawnKind? {
      assert PawnsIn(s) == [] + PawnsIn(s[1..]);
      assert NonPawnThings(s) == [s[0]] + NonPawnThings(s[1..]);
      DropFirstPawnSpec(s[1..]);
      var r := [s[0]] + DropFirstPawn(s[1..]);
      assert r[0] == s[0] && r[1..] == DropFirstPawn(s[1..]);
      assert PawnsIn(r) == [] + PawnsIn(DropFirstPawn(s[1..]));
    } else {
      assert PawnsIn(s) == [s[0].kind.pawn] + PawnsIn(s[1..]);
      assert NonPawnThings(s) == [] + NonPawnThings(s[1..]);
    }
  }

  lemma {:induction false} NoPawnsLeft(s: seq<Thing>)
    requires PawnsIn(s) == []
    ensures NonPawnThings(s) == s
  {
    if s != [] && !s[0].kind.PawnKind? {
      assert PawnsIn(s) == [] + PawnsIn(s[1..]);
      NoPawnsLeft(s[1..]);
      assert NonPawnThings(s) == [s[0]] + s[1..];
    }
  }

  /** The inventory after a caravan docks and hands over a pawn: when no
      other humanlike pawn stays in the caravan, its items and its other
      pawns move into the inventory, and the construction cost, if still
      unpaid, is taken out of the result. The second component is whether
      the cost is paid. */
  function Absorb(inv: seq<Thing>, items: seq<Thing>, others: seq<Pawn>, costPaid: bool, costs: seq<Cost>): (r: (seq<Thing>, bool))
  {
    if AnyHumanlike(others) then (inv, costPaid)
    else
      var pooled := inv + items + PawnThings(others);
      if !costPaid && |costs| > 0 then
        var d := Deduct(pooled, costs);
        (d.0, d.1 == [])
      else (pooled, costPaid)
  }

  // ---------------------------------------------------------------------
  // Capability and production.

  /** Whether the pawn's skill tracker marks the skill as totally
      disabled; a skill the tracker does not list is not disabled. */
  predicate Disabled(p: Pawn, s: SkillDef)
    requires p.skills.Some?
  {
    s in p.skills.value && p.skills.value[s].totallyDisabled
  }

  /** A capable pawn is humanlike, has skills, and none of the skills the
      configuration mentions is totally disabled. */
  predicate IsCapable(ext: OutpostExtension, p: Pawn) {
    p.humanlike && p.skills.Some? && forall s :: s in RelevantSkills(ext) ==> !Disabled(p, s)
  }

  /** The occupants that are capable, in roster order. */
  function CapablePawns(ext: OutpostExtension, occupants: seq<Pawn>): (r: seq<Pawn>)
    ensures |r| <= |occupants|
    ensures forall i :: 0 <= i < |r| ==> r[i] in occupants && IsCapable(ext, r[i])
    ensures forall i :: 0 <= i < |occupants| && IsCapable(ext, occupants[i]) ==> occupants[i] in r
    ensures AllHaveSkills(r)
  {
    if occupants == [] then []
    else (if IsCapable(ext, occupants[0]) then [occupants[0]] else []) + CapablePawns(ext, occupants[1..])
  }

  /** Everything one production cycle makes: every result option's stacks,
      option by option. */
  function ProducedThings(options: seq<ResultOption>, pawns: seq<Pawn>, productionMultiplier: real): seq<Thing>
    requires AllHaveSkills(pawns)
    requires forall i :: 0 <= i < |options| ==> options[i].thing.stackLimit > 0
  {
    if options == [] then []
    else Make(options[0], pawns, productionMultiplier) + ProducedThings(options[1..], pawns, productionMultiplier)
  }

  function ProducedAmount(options: seq<ResultOption>, pawns: seq<Pawn>, productionMultiplier: real): int
    requires AllHaveSkills(pawns)
  {
    if options == [] then 0
    else Amount(options[0], pawns, productionMultiplier) + ProducedAmount(options[1..], pawns, productionMultiplier)
  }

  /** When no option's amount is negative, the stacks produced hold
      exactly the sum of the options' amounts. */
  lemma {:induction false} ProducedTotal(options: seq<ResultOption>, pawns: seq<Pawn>, productionMultiplier: real)
    requires AllHaveSkills(pawns)
    requires forall i :: 0 <= i < |options| ==> options[i].thing.stackLimit > 0
    requires forall i :: 0 <= i < |options| ==> Amount(options[i], pawns, productionMultiplier) >= 0
    ensures TotalCount(ProducedThings(options, pawns, productionMultiplier))
         == ProducedAmount(options, pawns, productionMultiplier)
  {
    if options != [] {
      MakeHoldsAmount(options[0], pawns, productionMultiplier);
      ProducedTotal(options[1..], pawns, productionMultiplier);
      TotalCountAppend(Make(options[0], pawns, productionMultiplier),
                       ProducedThings(options[1..], pawns, productionMultiplier));
    }
  }

  /** The cached skill totals after a recount: every listed skill
      definition is mapped to the total of the skill asked for (the
      recount sums that one skill under every key). */
  function RecountedTotals(previous: map<SkillDef, int>, allSkillDefs: seq<SkillDef>, total: int): (m: map<SkillDef, int>)
    ensures forall k :: k in allSkillDefs ==> k in m && m[k] == total
    ensures forall k :: k !in allSkillDefs ==> (k in m <==> k in previous) && (k in m ==> m[k] == previous[k])
  {
    previous + map k | k in allSkillDefs :: total
  }

  /** Recounting one more definition overwrites its entry. */
  lemma RecountedSnoc(previous: map<SkillDef, int>, allSkillDefs: seq<SkillDef>, j: nat, total: int)
    requires j < |allSkillDefs|
    ensures RecountedTotals(previous, allSkillDefs[..j + 1], total)
         == RecountedTotals(previous, allSkillDefs[..j], total)[allSkillDefs[j] := total]
  {
    assert allSkillDefs[..j + 1] == allSkillDefs[..j] + [allSkillDefs[j]];
  }

  // ---------------------------------------------------------------------
  // Raid points.

  function MaxReal(a: real, b: real): real { if a >= b then a else b }

  /** The threat floor: the map's threat points when the outpost has a
      map, 35 otherwise. */
  function MapPoints(hasMap: bool, threatPointsNow: real): real {
    if hasMap then threatPointsNow else 35.0
  }

  /** A value forced into [lo, hi]. */
  function Clamp(x: real, lo: real, hi: real): (r: real)
    requires lo <= hi
    ensures lo <= r <= hi
    ensures lo <= x <= hi ==> r == x
    ensures x < lo ==> r == lo
    ensures x > hi ==> r == hi
  {
    if x < lo then lo else if x > hi then hi else x
  }

  lemma ClampMonotone(x: real, y: real, lo: real, hi: real)
    requires lo <= hi && x <= y
    ensures Clamp(x, lo, hi) <= Clamp(y, lo, hi)
  {
  }

  /** The final step of raid points: the larger of the curve-based points
      and the map floor, times the difficulty multiplier, clamped to
      [35, 10000]. */
  function ResolveRaidPoints(points: real, mapPoints: real, multiplier: real): (r: real)
    ensures 35.0 <= r <= 10000.0
    ensures var x := MaxReal(points, mapPoints) * multiplier;
      (x < 35.0 ==> r == 35.0) && (x > 10000.0 ==> r == 10000.0) &&
      (35.0 <= x <= 10000.0 ==> r == x)
  {
    Clamp(MaxReal(points, mapPoints) * multiplier, 35.0, 10000.0)
  }

  /** More points before the clamp never give fewer raid points. */
  lemma RaidPointsMonotone(p: real, q: real, mapPoints: real, multiplier: real)
    requires p <= q && multiplier >= 0.0
    ensures ResolveRaidPoints(p, mapPoints, multiplier) <= ResolveRaidPoints(q, mapPoints, multiplier)
  {
    var a := MaxReal(p, mapPoints);
    var b := MaxReal(q, mapPoints);
    ScaleMonotone(a, b, multiplier);
    ClampMonotone(a * multiplier, b * multiplier, 35.0, 10000.0);
  }

  lemma ScaleMonotone(a: real, b: real, m: real)
    requires a <= b && m >= 0.0
    ensures a * m <= b * m
  {
    assert b * m - a * m == (b - a) * m;
    assert (b - a) * m >= 0.0;
  }

  // ---------------------------------------------------------------------
  // What the outpost holds, and what it reports.

  /** Where a delivery went. */
  datatype Route = StoredWithoutMap | Teleported | ByPackAnimals | StoredByChoice | ByPods

  /** Effects on the host game that the model records instead of
      performing: log lines, letters, messages and calls into the host's
      pawn simulation. */
  datatype Effect =
    | ErrorLogged(message: string)
    | WarningLogged(message: string)
    | Aged(pawn: Pawn)
    | Rested(pawn: Pawn, effectiveness: real)
    | Fed(pawn: Pawn, food: ThingDef)
    | AbandonedLetter
    | Shipped(route: Route, things: seq<Thing>)
    | ItemsLetter(singles: seq<Thing>, counts: seq<Cost>)
    | PodMessage(pawn: Pawn)

  /** The part of an outpost that its operations change. */
  datatype Holdings = Holdings(occupants: seq<Pawn>, inventory: seq<Thing>, log: seq<Effect>, abandoned: bool)

  const NullMapWarning: string := "Vanilla Outpost Expanded Tried to deliver to a null map, storing instead"
  const AliveReportedDead: string := "Alive pawn reported as dead."
  const DiedUnspawned: string := "Outpost occupant died in unspawned outpost."
  const TakeMissing: string := "Tried to take a thing the container does not hold."

  /** The route a delivery takes: kept at the outpost without a destination
      map, otherwise as the delivery method says, where pack-or-pods uses
      pods once transport pods are researched. */
  function DeliveryRoute(mapExists: bool, how: DeliveryMethod, podsResearched: bool): (r: Route)
    ensures r == StoredWithoutMap <==> !mapExists
    ensures mapExists ==> (r == StoredByChoice <==> how == Store)
    ensures mapExists && how == PackOrPods ==> (r == ByPods <==> podsResearched)
    ensures mapExists && how == ForcePods ==> r == ByPods
    ensures mapExists && how == Teleport ==> r == Teleported
    ensures mapExists && how == PackAnimal ==> r == ByPackAnimals
  {
    if !mapExists then StoredWithoutMap
    else match how
      case Teleport => Teleported
      case PackAnimal => ByPackAnimals
      case Store => StoredByChoice
      case ForcePods => ByPods
      case PackOrPods => if podsResearched then ByPods else ByPackAnimals
  }

  /** The outpost after a delivery: without a map the goods are kept and a
      warning is logged; otherwise they are kept (the store method) or sent
      off, and a letter lists them. */
  function Delivered(h: Holdings, things: seq<Thing>, route: Route): (r: Holdings)
    ensures r.occupants == h.occupants && r.abandoned == h.abandoned
    ensures route == StoredWithoutMap ==> r.log == h.log + [WarningLogged(NullMapWarning)]
    ensures route != StoredWithoutMap ==> |r.log| > 0 && r.log[|r.log| - 1] == ItemsLetter(Manifest(things).0, Manifest(things).1)
  {
    match route
    case StoredWithoutMap =>
      h.(inventory := h.inventory + things, log := h.log + [WarningLogged(NullMapWarning)])
    case StoredByChoice =>
      h.(inventory := h.inventory + things, log := h.log + [ItemsLetter(Manifest(things).0, Manifest(things).1)])
    case _ =>
      h.(log := h.log + [Shipped(route, things), ItemsLetter(Manifest(things).0, Manifest(things).1)])
  }

  /** Goods kept at the outpost are all kept, none lost; goods sent off
      leave the inventory as it was. */
  lemma DeliverKeepsOrShips(h: Holdings, things: seq<Thing>, route: Route)
    ensures route in {StoredWithoutMap, StoredByChoice} ==>
              Delivered(h, things, route).inventory == h.inventory + things &&
              TotalCount(Delivered(h, things, route).inventory) == TotalCount(h.inventory) + TotalCount(things)
    ensures route !in {StoredWithoutMap, StoredByChoice} ==>
              Delivered(h, things, route).inventory == h.inventory &&
              Shipped(route, things) in Delivered(h, things, route).log
  {
    TotalCountAppend(h.inventory, things);
    var r := Delivered(h, things, route);
    if route !in {StoredWithoutMap, StoredByChoice} {
      assert r.log[|h.log|] == Shipped(route, things);
    }
  }

  /** A death reported to the outpost. A pawn that is not dead only earns an
      error. A dead one leaves the roster and its corpse joins the
      inventory (an error is logged first when the outpost is not spawned);
      the outpost is abandoned when nobody else is left. */
  function MemberDied(h: Holdings, member: Pawn, memberDead: bool, outpostSpawned: bool): Holdings {
    if !memberDead then h.(log := h.log + [ErrorLogged(AliveReportedDead)])
    else
      var roster := Without(h.occupants, member);
      var abandon := roster == [];
      var extra := (if outpostSpawned then [] else [ErrorLogged(DiedUnspawned)]) +
                   (if abandon then [AbandonedLetter] else []);
      Holdings(roster, h.inventory + [CorpseOf(member)], h.log + extra, h.abandoned || abandon)
  }

  /** What a reported death does: an alive pawn only earns an error; a dead
      one is off the roster, every other member stays, its corpse is added,
      and the outpost is abandoned exactly when nobody else was on the
      roster, with the abandonment letter sent. The roster never gains a
      pawn or a repeat, and the log only grows. */
  lemma MemberDiedSpec(h: Holdings, member: Pawn, memberDead: bool, outpostSpawned: bool)
    ensures var r := MemberDied(h, member, memberDead, outpostSpawned);
            (!memberDead ==> r == h.(log := h.log + [ErrorLogged(AliveReportedDead)])) &&
            (memberDead ==> member !in r.occupants && r.inventory == h.inventory + [CorpseOf(member)]) &&
            (memberDead ==> forall i :: 0 <= i < |h.occupants| && h.occupants[i] != member ==> h.occupants[i] in r.occupants) &&
            (memberDead ==> (r.abandoned <==> h.abandoned || forall i :: 0 <= i < |h.occupants| ==> h.occupants[i] == member)) &&
            (memberDead && (forall i :: 0 <= i < |h.occupants| ==> h.occupants[i] == member) ==> AbandonedLetter in r.log) &&
            (NoDups(h.occupants) ==> NoDups(r.occupants)) &&
            (forall i :: 0 <= i < |r.occupants| ==> r.occupants[i] in h.occupants) &&
            |h.log| <= |r.log| && r.log[..|h.log|] == h.log &&
            r.abandoned == (h.abandoned || AbandonedLetter in r.log[|h.log|..])
  {
    if memberDead {
      var roster := Without(h.occupants, member);
      var abandon := roster == [];
      var extra := (if outpostSpawned then [] else [ErrorLogged(DiedUnspawned)]) +
                   (if abandon then [AbandonedLetter] else []);
      WithoutNoDups(h.occupants, member);
      assert (h.log + extra)[|h.log|..] == extra;
      assert AbandonedLetter in extra <==> abandon;
    } else {
      assert (h.log + [ErrorLogged(AliveReportedDead)])[|h.log|..] == [ErrorLogged(AliveReportedDead)];
    }
  }

  lemma NoDupsTail<T>(s: seq<T>)
    requires NoDups(s) && s != []
    ensures NoDups(s[1..]) && s[0] !in s[1..]
  {
    forall i, j | 0 <= i < j < |s[1..]| ensures s[1..][i] != s[1..][j] {
      assert s[1..][i] == s[i + 1] && s[1..][j] == s[j + 1];
    }
    forall j | 0 <= j < |s[1..]| ensures s[1..][j] != s[0] {
      assert s[1..][j] == s[j + 1];
    }
  }

  lemma NoDupsCons<T>(x: T, s: seq<T>)
    requires NoDups(s) && x !in s
    ensures NoDups([x] + s)
  {
    var r := [x] + s;
    forall i, j | 0 <= i < j < |r| ensures r[i] != r[j] {
      assert r[j] == s[j - 1];
      if i > 0 { assert r[i] == s[i - 1]; }
    }
  }

  /** Removing a member keeps the roster free of repeats, and empties it
      exactly when it held only that member. */
  lemma {:induction false} WithoutNoDups(ps: seq<Pawn>, p: Pawn)
    ensures NoDups(ps) ==> NoDups(Without(ps, p))
    ensures Without(ps, p) == [] <==> forall i :: 0 <= i < |ps| ==> ps[i] == p
  {
    if ps != [] && NoDups(ps) {
      NoDupsTail(ps);
      WithoutNoDups(ps[1..], p);
      if ps[0] != p {
        NoDupsCons(ps[0], Without(ps[1..], p));
      } else {
        assert Without(ps, p) == Without(ps[1..], p);
      }
    }
    var r := Without(ps, p);
    if r != [] {
      assert r[0] in ps && r[0] != p;
    }
  }

  /** Stacks that housekeeping drops: destroyed ones and empty ones. */
  predicate Spoiled(t: Thing) {
    t.destroyed || t.stackCount == 0
  }

  /** The inventory without its spoiled stacks, in order. */
  function Healthy(s: seq<Thing>): (r: seq<Thing>)
    decreases |s|
    ensures |r| <= |s|
    ensures forall i :: 0 <= i < |r| ==> r[i] in s && !Spoiled(r[i])
    ensures forall i :: 0 <= i < |s| && !Spoiled(s[i]) ==> s[i] in r
  {
    if s == [] then []
    else Healthy(s[..|s| - 1]) + (if Spoiled(s[|s| - 1]) then [] else [s[|s| - 1]])
  }

  /** Dropping spoiled stacks twice drops nothing more, and when no stack
      is destroyed no unit is lost. */
  lemma HealthySpec(s: seq<Thing>)
    ensures Healthy(Healthy(s)) == Healthy(s)
    ensures (forall i :: 0 <= i < |s| ==> !s[i].destroyed) ==> TotalCount(Healthy(s)) == TotalCount(s)
  {
    HealthyIdempotent(s);
    if forall i :: 0 <= i < |s| ==> !s[i].destroyed {
      HealthyKeepsCount(s);
    }
  }

  lemma {:induction false} HealthyIdempotent(s: seq<Thing>)
    ensures Healthy(Healthy(s)) == Healthy(s)
    decreases |s|
  {
    if s != [] {
      var init := s[..|s| - 1];
      var t := s[|s| - 1];
      HealthyIdempotent(init);
      var h := Healthy(init);
      if !Spoiled(t) {
        assert (h + [t])[..|h + [t]| - 1] == h;
      } else {
        assert h + [] == h;
      }
    }
  }

  lemma {:induction false} HealthyKeepsCount(s: seq<Thing>)
    requires forall i :: 0 <= i < |s| ==> !s[i].destroyed
    ensures TotalCount(Healthy(s)) == TotalCount(s)
    decreases |s|
  {
    if s != [] {
      var init := s[..|s| - 1];
      var t := s[|s| - 1];
      assert s == init + [t];
      HealthyKeepsCount(init);
      var h := Healthy(init);
      TotalCountAppend(init, [t]);
      assert TotalCount([t]) == t.stackCount;
      if !Spoiled(t) {
        TotalCountAppend(h, [t]);
      } else {
        assert h + [] == h;
      }
    }
  }

  /** The index of the first spoiled stack, if any. */
  function FirstSpoiled(s: seq<Thing>): (r: Option<nat>)
    ensures r.Some? ==> r.value < |s| && Spoiled(s[r.value])
    ensures r.Some? ==> forall i :: 0 <= i < r.value ==> !Spoiled(s[i])
    ensures r.None? <==> forall i :: 0 <= i < |s| ==> !Spoiled(s[i])
  {
    if s == [] then None
    else if Spoiled(s[0]) then Some(0)
    else
      var k := FirstSpoiled(s[1..]);
      if k.None? then None else Some(k.value + 1)
  }

  /** The housekeeping pass as written: the lazy filter walks the live
      inventory, the first spoiled stack it yields is removed, and the next
      step of the enumeration throws because the list under it changed.
      The result is the inventory left behind and whether the pass threw. */
  function HealthyAsWritten(s: seq<Thing>): (r: (seq<Thing>, bool))
    ensures r.1 <==> exists i :: 0 <= i < |s| && Spoiled(s[i])
    ensures !r.1 ==> r.0 == s
    ensures r.1 ==> |r.0| == |s| - 1 && multiset(r.0) + multiset{s[FirstSpoiled(s).value]} == multiset(s)
  {
    var k := FirstSpoiled(s);
    if k.None? then (s, false)
    else
      assert s == s[..k.value] + [s[k.value]] + s[k.value + 1..];
      (s[..k.value] + s[k.value + 1..], true)
  }

  /** With two spoiled stacks, the pass as written throws and leaves a
      spoiled stack behind, while Healthy leaves none. */
  lemma HealthyAsWrittenLeavesSpoiled(s: seq<Thing>, i: nat, j: nat)
    requires i < j < |s| && Spoiled(s[i]) && Spoiled(s[j])
    ensures HealthyAsWritten(s).1
    ensures exists k :: 0 <= k < |HealthyAsWritten(s).0| && Spoiled(HealthyAsWritten(s).0[k])
    ensures forall k :: 0 <= k < |Healthy(s)| ==> !Spoiled(Healthy(s)[k])
  {
    var f := FirstSpoiled(s).value;
    assert f <= i;
    var r := HealthyAsWritten(s).0;
    assert r == s[..f] + s[f + 1..];
    assert r[j - 1] == s[j];
  }

  /** Without a spoiled stack, the pass as written and Healthy both leave
      the inventory as it is. */
  lemma {:induction false} HealthyAsWrittenAgrees(s: seq<Thing>)
    requires forall i :: 0 <= i < |s| ==> !Spoiled(s[i])
    ensures HealthyAsWritten(s) == (s, false)
    ensures Healthy(s) == s
    decreases |s|
  {
    if s != [] {
      HealthyAsWrittenAgrees(s[..|s| - 1]);
      assert s[..|s| - 1] + [s[|s| - 1]] == s;
    }
  }
}
