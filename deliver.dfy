/** The pack-animal delivery job: a graph of toils (travel to the delivery
    spot, drop everything, look for another drop spot, leave the map) whose
    transitions fire on memos, and the drop toil's tick counter, which
    reports when all inventories are empty and when the drop area has been
    busy too long. */
module Deliver {
  import opened Common

  datatype Toil = Travel | ExitMap | Drop | GotoDropLoc

  /** What can fire a transition: a memo with a name, or a pawn of the
      group being harmed. */
  datatype Signal = Memo(name: string) | PawnHarmed

  datatype Transition = Transition(source: Toil, target: Toil, triggers: seq<Signal>)

  datatype Graph = Graph(start: Toil, toils: seq<Toil>, transitions: seq<Transition>)

  const TravelArrived: string := "TravelArrived"
  const DroppedMemo: string := "AllDropped"
  const AreaFullMemo: string := "AreaFull"

  /** After this many ticks in the drop toil the area counts as full. */
  const AreaFullTicks: int := 60

  /** The graph as built: the drop toil's two outgoing transitions are both
      keyed on the all-dropped memo, the one to the exit first. */
  function CreateGraph(): (g: Graph)
    ensures g.start == Travel
    ensures g.toils == [Travel, ExitMap, Drop, GotoDropLoc]
    ensures |g.transitions| == 4
    ensures g.transitions[1] == Transition(Drop, ExitMap, [Memo(DroppedMemo)])
    ensures g.transitions[2] == Transition(Drop, GotoDropLoc, [Memo(DroppedMemo)])
  {
    Graph(Travel, [Travel, ExitMap, Drop, GotoDropLoc],
          [Transition(Travel, Drop, [Memo(TravelArrived), PawnHarmed]),
           Transition(Drop, ExitMap, [Memo(DroppedMemo)]),
           Transition(Drop, GotoDropLoc, [Memo(DroppedMemo)]),
           Transition(GotoDropLoc, Drop, [Memo(TravelArrived)])])
  }

  /** The graph with the drop toil's second transition keyed on the
      area-full memo, which the drop toil emits and nothing else reads. */
  function CreateGraphIntended(): (g: Graph)
    ensures g.start == Travel
    ensures g.toils == [Travel, ExitMap, Drop, GotoDropLoc]
    ensures |g.transitions| == 4
    ensures g.transitions[1] == Transition(Drop, ExitMap, [Memo(DroppedMemo)])
    ensures g.transitions[2] == Transition(Drop, GotoDropLoc, [Memo(AreaFullMemo)])
  {
    Graph(Travel, [Travel, ExitMap, Drop, GotoDropLoc],
          [Transition(Travel, Drop, [Memo(TravelArrived), PawnHarmed]),
           Transition(Drop, ExitMap, [Memo(DroppedMemo)]),
           Transition(Drop, GotoDropLoc, [Memo(AreaFullMemo)]),
           Transition(GotoDropLoc, Drop, [Memo(TravelArrived)])])
  }

  /** Whether the transition leaves the current toil on this signal. */
  predicate Fires(t: Transition, current: Toil, s: Signal) {
    t.source == current && s in t.triggers
  }

  /** The host's rule for a signal: the first registered transition out of
      the current toil with a trigger the signal fires is taken; without
      one the toil stays. */
  function FirstMatch(ts: seq<Transition>, current: Toil, s: Signal): (r: Option<Toil>)
    ensures r.None? <==> forall i :: 0 <= i < |ts| ==> !Fires(ts[i], current, s)
  {
    if ts == [] then None
    else if Fires(ts[0], current, s) then Some(ts[0].target)
    else
      var rest := FirstMatch(ts[1..], current, s);
      assert forall i :: 1 <= i < |ts| ==> ts[i] == ts[1..][i - 1];
      rest
  }

  /** The transition taken is the first that fires. */
  lemma {:induction false} FirstMatchAt(ts: seq<Transition>, current: Toil, s: Signal, k: nat)
    requires k < |ts| && Fires(ts[k], current, s)
    requires forall i :: 0 <= i < k ==> !Fires(ts[i], current, s)
    ensures FirstMatch(ts, current, s) == Some(ts[k].target)
    decreases k
  {
    if k > 0 {
      assert !Fires(ts[0], current, s);
      FirstMatchAt(ts[1..], current, s, k - 1);
    }
  }

  function Next(g: Graph, current: Toil, s: Signal): Toil {
    FirstMatch(g.transitions, current, s).GetOr(current)
  }

  /** Travel leads to the drop toil on arrival or when a pawn is harmed,
      the search for a new spot leads back to it on arrival, and the exit
      is final. The same holds in the intended graph. */
  lemma GraphShape(g: Graph, s: Signal)
    requires g == CreateGraph() || g == CreateGraphIntended()
    ensures Next(g, Travel, Memo(TravelArrived)) == Drop && Next(g, Travel, PawnHarmed) == Drop
    ensures Next(g, GotoDropLoc, Memo(TravelArrived)) == Drop
    ensures Next(g, ExitMap, s) == ExitMap
    ensures Next(g, Drop, Memo(DroppedMemo)) == ExitMap
  {
    var ts := g.transitions;
    FirstMatchAt(ts, Travel, Memo(TravelArrived), 0);
    FirstMatchAt(ts, Travel, PawnHarmed, 0);
    GotoShape(g);
    ExitShape(g, s);
    FirstMatchAt(ts, Drop, Memo(DroppedMemo), 1);
  }

  lemma GotoShape(g: Graph)
    requires g == CreateGraph() || g == CreateGraphIntended()
    ensures Next(g, GotoDropLoc, Memo(TravelArrived)) == Drop
  {
    FirstMatchAt(g.transitions, GotoDropLoc, Memo(TravelArrived), 3);
  }

  lemma ExitShape(g: Graph, s: Signal)
    requires g == CreateGraph() || g == CreateGraphIntended()
    ensures Next(g, ExitMap, s) == ExitMap
  {
    assert forall i :: 0 <= i < |g.transitions| ==> g.transitions[i].source != ExitMap;
  }

  /** As built, no signal takes the drop toil to the search for a new spot,
      and the area-full memo moves no toil. */
  lemma AsBuiltNeverSeeksNewSpot(t: Toil, s: Signal)
    ensures Next(CreateGraph(), Drop, s) != GotoDropLoc
    ensures Next(CreateGraph(), t, Memo(AreaFullMemo)) == t
  {
    var ts := CreateGraph().transitions;
    if s == Memo(DroppedMemo) {
      FirstMatchAt(ts, Drop, s, 1);
    } else {
      assert forall i :: 0 <= i < |ts| ==> !Fires(ts[i], Drop, s);
    }
    assert forall i :: 0 <= i < |ts| ==> !Fires(ts[i], t, Memo(AreaFullMemo));
  }

  /** In the intended graph the area-full memo sends the drop toil to the
      search for a new spot, and all-dropped still ends the job. */
  lemma IntendedSeeksNewSpot()
    ensures Next(CreateGraphIntended(), Drop, Memo(AreaFullMemo)) == GotoDropLoc
    ensures Next(CreateGraphIntended(), Drop, Memo(DroppedMemo)) == ExitMap
  {
    var ts := CreateGraphIntended().transitions;
    FirstMatchAt(ts, Drop, Memo(AreaFullMemo), 2);
    FirstMatchAt(ts, Drop, Memo(DroppedMemo), 1);
  }

  /** Every owned pawn's inventory is empty (so, with no pawns, true). */
  predicate AllDropped(inventories: seq<nat>) {
    forall i :: 0 <= i < |inventories| ==> inventories[i] == 0
  }

  /** One drop-toil tick on the counter: the all-dropped check, then the
      increment, then the area-full check. */
  function DropStep(ticksPassed: int, allDropped: bool): (r: (int, seq<string>))
    ensures r.0 == ticksPassed + 1
    ensures DroppedMemo in r.1 <==> allDropped
    ensures AreaFullMemo in r.1 <==> r.0 > AreaFullTicks
    ensures allDropped && r.0 > AreaFullTicks ==> r.1 == [DroppedMemo, AreaFullMemo]
  {
    var dropped := if allDropped then [DroppedMemo] else [];
    var t := ticksPassed + 1;
    (t, dropped + if t > AreaFullTicks then [AreaFullMemo] else [])
  }

  /** The counter after n ticks from t. */
  function DropAfter(t: int, n: nat): int {
    if n == 0 then t else DropStep(DropAfter(t, n - 1), false).0
  }

  /** Counted from a reset, the n-th tick (n >= 1) reports the area full
      exactly when n > 60, so from the 61st tick on. */
  lemma {:induction false} AreaFullFromTick61(n: nat, allDropped: bool)
    requires n >= 1
    ensures DropAfter(0, n - 1) == n - 1
    ensures AreaFullMemo in DropStep(DropAfter(0, n - 1), allDropped).1 <==> n > AreaFullTicks
  {
    if n > 1 {
      AreaFullFromTick61(n - 1, false);
    }
  }

  /** The drop toil's data. */
  class DropToil {
    var ticksPassed: int

    constructor()
      ensures ticksPassed == 0
    {
      ticksPassed := 0;
    }

    /** Entering the toil gives every pawn the drop-all duty (not modelled)
        and restarts the counter. */
    method UpdateAllDuties()
      modifies this
      ensures ticksPassed == 0
    {
      ticksPassed := 0;
    }

    /** One tick: the memos sent to the lord, in order. */
    method Tick(inventories: seq<nat>) returns (memos: seq<string>)
      modifies this
      ensures (ticksPassed, memos) == DropStep(old(ticksPassed), AllDropped(inventories))
    {
      var allDropped := true;
      for i := 0 to |inventories|
        invariant allDropped <==> forall j :: 0 <= j < i ==> inventories[j] == 0
      {
        if inventories[i] != 0 {
          allDropped := false;
        }
      }
      memos := if allDropped then [DroppedMemo] else [];
      ticksPassed := ticksPassed + 1;
      if ticksPassed > AreaFullTicks {
        memos := memos + [AreaFullMemo];
      } else {
        assert memos == memos + [];
      }
    }
  }

  /** The group running the job: its current toil and the drop toil's
      data. The host enters a toil by updating its duties, which restarts
      the drop counter. */
  class Lord {
    const graph: Graph
    var current: Toil
    const drop: DropToil

    constructor(graph: Graph)
      ensures this.graph == graph && current == graph.start
      ensures fresh(drop) && drop.ticksPassed == 0
    {
      this.graph := graph;
      current := graph.start;
      drop := new DropToil();
    }

    method ReceiveSignal(s: Signal)
      modifies this`current, drop
      ensures current == Next(graph, old(current), s)
      ensures FirstMatch(graph.transitions, old(current), s).Some? && current == Drop ==> drop.ticksPassed == 0
      ensures FirstMatch(graph.transitions, old(current), s).None? || current != Drop ==>
                drop.ticksPassed == old(drop.ticksPassed)
    {
      var target := FirstMatch(graph.transitions, current, s);
      if target.Some? {
        current := target.value;
        if current == Drop {
          drop.UpdateAllDuties();
        }
      }
    }

    /** One tick of the drop toil while it is current: its memos reach the
        lord in order. */
    method TickDrop(inventories: seq<nat>)
      requires current == Drop
      modifies this`current, drop
      ensures var step := DropStep(old(drop.ticksPassed), AllDropped(inventories));
              current == Run(graph, Drop, step.1)
    {
      var memos := drop.Tick(inventories);
      for i := 0 to |memos|
        invariant current == Run(graph, Drop, memos[..i])
      {
        ReceiveSignal(Memo(memos[i]));
        assert memos[..i + 1][..i] == memos[..i];
      }
      assert memos[..|memos|] == memos;
    }
  }

  /** The toil after a run of memos. */
  function Run(g: Graph, t: Toil, memos: seq<string>): Toil
    decreases |memos|
  {
    if memos == [] then t else Next(g, Run(g, t, memos[..|memos| - 1]), Memo(memos[|memos| - 1]))
  }

  /** When both memos come in one tick, the job ends in either graph. */
  lemma BothMemosEndTheJob(g: Graph)
    requires g == CreateGraph() || g == CreateGraphIntended()
    ensures Run(g, Drop, [DroppedMemo, AreaFullMemo]) == ExitMap
  {
    var ms := [DroppedMemo, AreaFullMemo];
    assert ms[..1] == [DroppedMemo] && ms[..1][..0] == [];
    GraphShape(g, Memo(AreaFullMemo));
    assert Run(g, Drop, ms[..1]) == ExitMap;
  }

  /** In the intended graph, a tick with pawns still carrying things after
      60 ticks sends the group to look for a new spot. */
  lemma IntendedAreaFullTick(t: int)
    requires t + 1 > AreaFullTicks
    ensures Run(CreateGraphIntended(), Drop, DropStep(t, false).1) == GotoDropLoc
  {
    var memos := DropStep(t, false).1;
    assert memos == [AreaFullMemo];
    assert memos[..0] == [];
    IntendedSeeksNewSpot();
  }
}
