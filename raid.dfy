/** The raid record an outpost keeps: the points and the faction of the
    raid currently attacking it, if any. */
module Raid {

  /** A faction of the world, referred to by identity. */
  class Faction {
    const name: string

    constructor(name: string)
      ensures this.name == name
    {
      this.name := name;
    }
  }

  class RaidTracker {
    var raidPoints: real
    var raidFaction: Faction?
    /** The outpost that owns this record. */
    var parent: object

    constructor(parent: object)
      ensures this.parent == parent && raidPoints == 0.0 && raidFaction == null
    {
      this.parent := parent;
      raidPoints := 0.0;
      raidFaction := null;
    }

    /** Forgets the raid. The new record does not depend on the old one,
        so a second reset changes nothing; the owner is left alone. */
    method Reset()
      modifies this`raidFaction, this`raidPoints
      ensures raidFaction == null && raidPoints == 0.0
      ensures parent == old(parent)
    {
      raidFaction := null;
      raidPoints := 0.0;
    }
  }
}
