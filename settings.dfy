/** The mod's settings: global multipliers and the delivery method, and for
    each kind of outpost a dictionary from setting keys to values written
    as decimal strings. */
module Settings {
  import opened Common

  /** How produced goods reach the player's colony. */
  datatype DeliveryMethod = Teleport | PackAnimal | Store | ForcePods | PackOrPods

  /** Ticks in a quarter of a year. */
  const TicksPerQuadrum: int := 15 * 60000

  /** A stored value as a typed lookup sees it: whether the key is present,
      and the parsed value (None standing for null, or for a value that
      does not parse). */
  function Lookup(values: map<string, string>, key: string): (r: (bool, Option<int>))
    ensures r.0 <==> key in values
    ensures !r.0 ==> r.1.None?
    ensures r.0 ==> r.1 == ParseInt(values[key])
  {
    if key in values then (true, ParseInt(values[key])) else (false, None)
  }

  /** The generic lookup: an absent key yields the type's default, 0. */
  function LookupOrDefault(values: map<string, string>, key: string): (r: (bool, int))
    ensures r.0 <==> key in values
    ensures !r.0 ==> r.1 == 0
    ensures r.0 && ParseInt(values[key]).Some? ==> r.1 == ParseInt(values[key]).value
  {
    var found := Lookup(values, key);
    (found.0, found.1.GetOr(0))
  }

  /** Storing a value and reading it back gives the value, and leaves every
      other key as it was. */
  lemma SetThenLookup(values: map<string, string>, key: string, v: int, other: string)
    ensures Lookup(values[key := IntToString(v)], key) == (true, Some(v))
    ensures other != key ==> Lookup(values[key := IntToString(v)], other) == Lookup(values, other)
  {
    ParseIntToString(v);
  }

  /** The stored settings of one kind of outpost. */
  class OutpostSettings {
    var name: string
    var values: map<string, string>

    constructor(name: string)
      ensures this.name == name && values == map[]
    {
      this.name := name;
      values := map[];
    }

    predicate Has(key: string)
      reads this
      ensures Has(key) <==> key in values
    {
      key in values
    }

    /** Whether the key is present, with its value or null. */
    function TryGetValue(key: string): (r: (bool, Option<int>))
      reads this
      ensures r.0 <==> Has(key)
      ensures !r.0 ==> r.1.None?
    {
      Lookup(values, key)
    }

    /** Whether the key is present, with its value or the default 0. */
    function TryGetValueOrDefault(key: string): (r: (bool, int))
      reads this
      ensures r.0 <==> Has(key)
      ensures !r.0 ==> r.1 == 0
    {
      LookupOrDefault(values, key)
    }

    /** Stores the value's decimal text, replacing any earlier value. */
    method Set(key: string, value: int)
      modifies this`values
      ensures values == old(values)[key := IntToString(value)]
      ensures TryGetValue(key) == (true, Some(value))
    {
      values := values[key := IntToString(value)];
      ParseIntToString(value);
    }

    method Remove(key: string)
      modifies this`values
      ensures values == old(values) - {key}
      ensures !Has(key)
    {
      values := values - {key};
    }
  }

  class ModSettings {
    var deliveryMethod: DeliveryMethod
    var doRaids: bool
    var productionMultiplier: real
    var timeMultiplier: real
    var raidDifficultyMultiplier: real
    /** Bounds, in ticks, of the time between raids. */
    var raidTimeInterval: (int, int)
    /** Settings per outpost def name; an entry may hold null. */
    var settingsPerOutpost: map<string, OutpostSettings?>

    constructor()
      ensures deliveryMethod == Teleport && doRaids
      ensures productionMultiplier == 1.0 && timeMultiplier == 1.0 && raidDifficultyMultiplier == 1.0
      ensures raidTimeInterval == (450000, 900000)
      ensures settingsPerOutpost == map[]
    {
      deliveryMethod := Teleport;
      doRaids := true;
      productionMultiplier := 1.0;
      timeMultiplier := 1.0;
      raidDifficultyMultiplier := 1.0;
      raidTimeInterval := (TicksPerQuadrum / 2, TicksPerQuadrum);
      settingsPerOutpost := map[];
    }

    /** The settings of one kind of outpost: the stored entry when there is
        a non-null one, otherwise a new empty entry named after the def,
        stored under that name. */
    method SettingsFor(defName: string) returns (s: OutpostSettings)
      modifies this`settingsPerOutpost
      ensures defName in old(settingsPerOutpost) && old(settingsPerOutpost)[defName] != null ==>
                s == old(settingsPerOutpost)[defName] && settingsPerOutpost == old(settingsPerOutpost)
      ensures !(defName in old(settingsPerOutpost) && old(settingsPerOutpost)[defName] != null) ==>
                fresh(s) && s.name == defName && s.values == map[] &&
                settingsPerOutpost == old(settingsPerOutpost)[defName := s]
      ensures defName in settingsPerOutpost && settingsPerOutpost[defName] == s
    {
      if defName in settingsPerOutpost && settingsPerOutpost[defName] != null {
        s := settingsPerOutpost[defName];
      } else {
        s := new OutpostSettings(defName);
        settingsPerOutpost := settingsPerOutpost[defName := s];
      }
    }
  }
}
