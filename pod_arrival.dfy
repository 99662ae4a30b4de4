/** Transport pods landing at an outpost: everything the pods carry is
    gathered first, with a message for each pawn; then each pawn is offered
    to the roster and each other thing goes into the inventory. */
module PodArrival {
  import opened Common
  import opened Things
  import opened Config
  import opened Rules
  import opened OutpostLogic
  import opened Outposts

  /** The contents of the pods, pod by pod, in order. */
  function Gathered(pods: seq<seq<Thing>>): (r: seq<Thing>)
    decreases |pods|
  {
    if pods == [] then [] else Gathered(pods[..|pods| - 1]) + pods[|pods| - 1]
  }

  /** Everything in any pod is gathered, and nothing else. */
  lemma {:induction false} GatheredMember(pods: seq<seq<Thing>>, t: Thing)
    ensures t in Gathered(pods) <==> exists i :: 0 <= i < |pods| && t in pods[i]
    decreases |pods|
  {
    if pods != [] {
      var init := pods[..|pods| - 1];
      GatheredMember(init, t);
      if t in Gathered(pods) && t !in pods[|pods| - 1] {
        var i :| 0 <= i < |init| && t in init[i];
        assert t in pods[i];
      }
      if exists i :: 0 <= i < |pods| && t in pods[i] {
        var i :| 0 <= i < |pods| && t in pods[i];
        if i < |init| {
          assert t in init[i];
        }
      }
    }
  }

  /** One message per pawn, in order. */
  function PodMessagesFor(ps: seq<Pawn>): (r: seq<Effect>)
    ensures |r| == |ps|
    ensures forall i :: 0 <= i < |ps| ==> r[i] == PodMessage(ps[i])
  {
    if ps == [] then [] else [PodMessage(ps[0])] + PodMessagesFor(ps[1..])
  }

  lemma PodMessagesSnoc(things: seq<Thing>, t: Thing)
    ensures PodMessagesFor(PawnsIn(things + [t]))
         == PodMessagesFor(PawnsIn(things)) + (if t.kind.PawnKind? then [PodMessage(t.kind.pawn)] else [])
  {
    SplitSnoc(things, t);
    var a := PawnsIn(things);
    if t.kind.PawnKind? {
      assert PodMessagesFor(a + [t.kind.pawn]) == PodMessagesFor(a) + [PodMessage(t.kind.pawn)];
    }
  }

  lemma {:induction false} PodMessagesAppend(a: seq<Pawn>, b: seq<Pawn>)
    ensures PodMessagesFor(a + b) == PodMessagesFor(a) + PodMessagesFor(b)
  {
    if a != [] {
      assert (a + b)[1..] == a[1..] + b;
      PodMessagesAppend(a[1..], b);
    } else {
      assert a + b == b;
    }
  }

  lemma GatheredSnoc(pods: seq<seq<Thing>>, i: nat)
    requires i < |pods|
    ensures Gathered(pods[..i + 1]) == Gathered(pods[..i]) + pods[i]
  {
    assert pods[..i + 1][..i] == pods[..i];
  }

  /** The messages for one more pod follow those posted so far. */
  lemma GatherStep(log: seq<Effect>, things: seq<Thing>, pod: seq<Thing>)
    ensures log + PodMessagesFor(PawnsIn(things + pod))
         == (log + PodMessagesFor(PawnsIn(things))) + PodMessagesFor(PawnsIn(pod))
  {
    PawnsInAppend(things, pod);
    PodMessagesAppend(PawnsIn(things), PawnsIn(pod));
  }

  /** Where one arriving thing goes: a pawn is offered to the roster (see
      Outpost.AddPawn, with no caravan), anything else joins the inventory. */
  function ArrivalStep(ext: OutpostExtension, s: (seq<Pawn>, seq<Thing>), t: Thing): (seq<Pawn>, seq<Thing>) {
    if t.kind.PawnKind? then
      var p := t.kind.pawn;
      if CanAddPawn(ext, p).accepted
      then (Admit(ext, Without(s.0, p) + [p], PawnsIn(s.1)), NonPawnThings(s.1))
      else s
    else (s.0, s.1 + [t])
  }

  /** The roster and inventory after routing the things in order. */
  function Routed(ext: OutpostExtension, s: (seq<Pawn>, seq<Thing>), things: seq<Thing>): (seq<Pawn>, seq<Thing>)
    decreases |things|
  {
    if things == [] then s
    else ArrivalStep(ext, Routed(ext, s, things[..|things| - 1]), things[|things| - 1])
  }

  lemma {:induction false} NonPawnThingsIdempotent(s: seq<Thing>)
    ensures NonPawnThings(NonPawnThings(s)) == NonPawnThings(s)
    decreases |s|
  {
    if s != [] {
      NonPawnThingsIdempotent(s[1..]);
      NonPawnThingsAppend(if s[0].kind.PawnKind? then [] else [s[0]], NonPawnThings(s[1..]));
    }
  }

  /** No item is lost: the inventory's items are the earlier items followed
      by the arriving items, in order. */
  lemma {:induction false} RoutedKeepsItems(ext: OutpostExtension, s: (seq<Pawn>, seq<Thing>), things: seq<Thing>)
    ensures NonPawnThings(Routed(ext, s, things).1) == NonPawnThings(s.1) + NonPawnThings(things)
    decreases |things|
  {
    if things != [] {
      var init := things[..|things| - 1];
      var t := things[|things| - 1];
      var prev := Routed(ext, s, init);
      RoutedKeepsItems(ext, s, init);
      assert things == init + [t];
      NonPawnThingsAppend(init, [t]);
      if t.kind.PawnKind? {
        if CanAddPawn(ext, t.kind.pawn).accepted {
          NonPawnThingsIdempotent(prev.1);
        }
      } else {
        NonPawnThingsAppend(prev.1, [t]);
      }
    }
  }

  /** The roster only grows, every arriving pawn the configuration accepts
      is on it, and no pawn is on it twice. */
  lemma {:induction false} RoutedAdmits(ext: OutpostExtension, s: (seq<Pawn>, seq<Thing>), things: seq<Thing>, q: Pawn)
    requires NoDups(s.0)
    ensures NoDups(Routed(ext, s, things).0)
    ensures q in s.0 ==> q in Routed(ext, s, things).0
    ensures q in PawnsIn(things) && CanAddPawn(ext, q).accepted ==> q in Routed(ext, s, things).0
    decreases |things|
  {
    if things != [] {
      var init := things[..|things| - 1];
      var t := things[|things| - 1];
      var prev := Routed(ext, s, init);
      RoutedAdmits(ext, s, init, q);
      assert things == init + [t];
      SplitSnoc(init, t);
      if t.kind.PawnKind? && CanAddPawn(ext, t.kind.pawn).accepted {
        var p := t.kind.pawn;
        var roster := Without(prev.0, p) + [p];
        WithoutNoDups(prev.0, p);
        WithoutMember(prev.0, p, p);
        NoDupsSnoc(Without(prev.0, p), p);
        AdmitNoDups(ext, roster, PawnsIn(prev.1));
        AdmitMember(ext, roster, PawnsIn(prev.1), q);
        WithoutMember(prev.0, p, q);
      }
    }
  }

  /** The arrival action aimed at one outpost. */
  class AddToOutpost {
    const outpost: Outpost

    constructor(addTo: Outpost)
      ensures outpost == addTo
    {
      outpost := addTo;
    }

    /** The pods still have somewhere to land when the outpost is on the
        destination tile. */
    predicate StillValid(destinationTile: int)
      ensures StillValid(destinationTile) <==> outpost.tile == destinationTile
    {
      outpost.tile == destinationTile
    }

    /** The first half of an arrival: the pods' contents in order, with a
        message posted for each pawn among them. */
    method GatherPods(pods: seq<seq<Thing>>) returns (things: seq<Thing>)
      modifies outpost`log
      ensures things == Gathered(pods)
      ensures outpost.log == old(outpost.log) + PodMessagesFor(PawnsIn(things))
    {
      things := [];
      for i := 0 to |pods|
        invariant things == Gathered(pods[..i])
        invariant outpost.log == old(outpost.log) + PodMessagesFor(PawnsIn(things))
      {
        GatherPod(pods[i]);
        GatherStep(old(outpost.log), things, pods[i]);
        GatheredSnoc(pods, i);
        things := things + pods[i];
      }
      assert pods[..|pods|] == pods;
    }

    /** One pod's contents, posting a message for each pawn in it. */
    method GatherPod(pod: seq<Thing>)
      modifies outpost`log
      ensures outpost.log == old(outpost.log) + PodMessagesFor(PawnsIn(pod))
    {
      for j := 0 to |pod|
        invariant outpost.log == old(outpost.log) + PodMessagesFor(PawnsIn(pod[..j]))
      {
        var t := pod[j];
        PodMessagesSnoc(pod[..j], t);
        assert pod[..j + 1] == pod[..j] + [t];
        if t.kind.PawnKind? {
          outpost.log := outpost.log + [PodMessage(t.kind.pawn)];
        }
      }
      assert pod[..|pod|] == pod;
    }

    /** The second half of an arrival: each pawn to the roster, each other
        thing to the inventory, in order. */
    method RouteThings(things: seq<Thing>)
      requires outpost.Valid() && outpost.ext.Some?
      modifies outpost`inventory, outpost`occupants, outpost`costPaid, outpost`skillsDirty
      ensures (outpost.occupants, outpost.inventory)
           == Routed(outpost.ext.value, (old(outpost.occupants), old(outpost.inventory)), things)
      ensures outpost.Valid()
    {
      for k := 0 to |things|
        invariant outpost.Valid()
        invariant (outpost.occupants, outpost.inventory)
               == Routed(outpost.ext.value, (old(outpost.occupants), old(outpost.inventory)), things[..k])
      {
        var t := things[k];
        if t.kind.PawnKind? {
          var _ := outpost.AddPawn(t.kind.pawn, null);
        } else {
          outpost.AddItem(t);
        }
        assert things[..k + 1][..k] == things[..k];
      }
      assert things[..|things|] == things;
    }

    /** Gathers everything the pods carry before routing any of it. */
    method Arrived(pods: seq<seq<Thing>>, tile: int)
      requires outpost.Valid() && outpost.ext.Some?
      modifies outpost`log, outpost`inventory, outpost`occupants, outpost`costPaid, outpost`skillsDirty
      ensures outpost.log == old(outpost.log) + PodMessagesFor(PawnsIn(Gathered(pods)))
      ensures (outpost.occupants, outpost.inventory)
           == Routed(outpost.ext.value, (old(outpost.occupants), old(outpost.inventory)), Gathered(pods))
      ensures outpost.Valid()
    {
      var things := GatherPods(pods);
      RouteThings(things);
    }
  }
}
