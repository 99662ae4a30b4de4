/** The mod object's settings registry: the configuration fields an outpost
    kind exposes on the settings page, the precedence that decides the value
    each one takes when an outpost spawns or the settings are written, and
    the store-or-remove rule the settings page applies to a drawn value.
    The host finds the exposed fields by reflection; here they are listed. */
module ModRegistry {
  import opened Common
  import opened Config
  import opened Settings
  import opened Outposts

  /** The configuration fields marked for the settings page. The outpost
      class itself marks none. */
  datatype SettingField = MinPawnsField | RangeField | TicksPerProductionField | TicksToPackField

  const ExtensionFields: seq<SettingField> :=
    [MinPawnsField, RangeField, TicksPerProductionField, TicksToPackField]

  function FieldName(f: SettingField): string {
    match f
    case MinPawnsField => "MinPawns"
    case RangeField => "Range"
    case TicksPerProductionField => "TicksPerProduction"
    case TicksToPackField => "TicksToPack"
  }

  /** A setting's key: the declaring type's name, a dot, the field's name. */
  function Key(f: SettingField): (k: string)
    ensures |k| > |"OutpostExtension."| && k[..|"OutpostExtension."|] == "OutpostExtension."
  {
    "OutpostExtension." + FieldName(f)
  }

  /** Distinct fields are stored under distinct keys. */
  lemma KeysDistinct(f: SettingField, g: SettingField)
    ensures f != g ==> Key(f) != Key(g)
  {
    var n := |"OutpostExtension."|;
    if f != g {
      assert Key(f)[n..] == FieldName(f) && Key(g)[n..] == FieldName(g);
    }
  }

  /** No marked field names a default object: every default is null. */
  function AttributeDefault(f: SettingField): Option<int> {
    None
  }

  function Get(ext: OutpostExtension, f: SettingField): int {
    match f
    case MinPawnsField => ext.minPawns
    case RangeField => ext.range
    case TicksPerProductionField => ext.ticksPerProduction
    case TicksToPackField => ext.ticksToPack
  }

  function Put(ext: OutpostExtension, f: SettingField, v: int): (r: OutpostExtension)
    ensures Get(r, f) == v
    ensures forall g :: g != f ==> Get(r, g) == Get(ext, g)
    ensures r.resultOptions == ext.resultOptions && r.costToMake == ext.costToMake
    ensures r.providedFood == ext.providedFood
  {
    match f
    case MinPawnsField => ext.(minPawns := v)
    case RangeField => ext.(range := v)
    case TicksPerProductionField => ext.(ticksPerProduction := v)
    case TicksToPackField => ext.(ticksToPack := v)
  }

  /** The value a field takes on initialisation: the stored value when the
      key is present (a stored text that does not parse reads as 0), else
      the attribute's default when it names one, else the field's current
      value. */
  function Initialized(stored: (bool, Option<int>), default: Option<int>, current: int): (r: int)
    ensures stored.0 && stored.1.Some? ==> r == stored.1.value
    ensures !stored.0 && default.Some? ==> r == default.value
    ensures !stored.0 && default.None? ==> r == current
  {
    if stored.0 then stored.1.GetOr(0) else if default.Some? then default.value else current
  }

  /** The configuration after initialising the given fields in order. */
  function InitializedExtension(values: map<string, string>, ext: OutpostExtension, fields: seq<SettingField>): (r: OutpostExtension)
    decreases |fields|
  {
    if fields == [] then ext
    else
      var f := fields[|fields| - 1];
      var prev := InitializedExtension(values, ext, fields[..|fields| - 1]);
      Put(prev, f, Initialized(Lookup(values, Key(f)), AttributeDefault(f), Get(prev, f)))
  }

  /** Initialising a list of fields sets each listed field by the
      precedence rule (a field listed twice ends as if listed once) and
      leaves every other field and the rest of the configuration as it is. */
  lemma {:induction false} InitializedFrame(values: map<string, string>, ext: OutpostExtension,
                                            fields: seq<SettingField>, f: SettingField)
    ensures var r := InitializedExtension(values, ext, fields);
            Get(r, f) == (if f in fields then Initialized(Lookup(values, Key(f)), None, Get(ext, f)) else Get(ext, f)) &&
            r.resultOptions == ext.resultOptions && r.costToMake == ext.costToMake &&
            r.providedFood == ext.providedFood
    decreases |fields|
  {
    if fields != [] {
      var init := fields[..|fields| - 1];
      InitializedFrame(values, ext, init, f);
      assert fields == init + [fields[|fields| - 1]];
      assert f in fields <==> f in init || f == fields[|fields| - 1];
    }
  }

  /** Initialising the exposed fields sets each from its stored value, and
      keeps it where no value is stored; nothing else changes. */
  lemma InitializedFields(values: map<string, string>, ext: OutpostExtension, f: SettingField)
    ensures var r := InitializedExtension(values, ext, ExtensionFields);
            Get(r, f) == Initialized(Lookup(values, Key(f)), None, Get(ext, f)) &&
            r.resultOptions == ext.resultOptions && r.costToMake == ext.costToMake &&
            r.providedFood == ext.providedFood
  {
    InitializedFrame(values, ext, ExtensionFields, f);
    assert f in ExtensionFields by {
      match f
      case MinPawnsField => assert ExtensionFields[0] == f;
      case RangeField => assert ExtensionFields[1] == f;
      case TicksPerProductionField => assert ExtensionFields[2] == f;
      case TicksToPackField => assert ExtensionFields[3] == f;
    }
  }

  /** Initialising twice from the same store is initialising once. */
  lemma InitializeIdempotent(values: map<string, string>, ext: OutpostExtension, f: SettingField)
    ensures var once := InitializedExtension(values, ext, ExtensionFields);
            Get(InitializedExtension(values, once, ExtensionFields), f) == Get(once, f)
  {
    var once := InitializedExtension(values, ext, ExtensionFields);
    InitializedFields(values, ext, f);
    InitializedFields(values, once, f);
  }

  /** A value the settings page stores is the value the field takes at the
      next initialisation, and a removed key leaves the field as it is. */
  lemma StoredSettingTakesEffect(values: map<string, string>, ext: OutpostExtension, f: SettingField, v: int)
    ensures Get(InitializedExtension(values[Key(f) := IntToString(v)], ext, ExtensionFields), f) == v
    ensures Get(InitializedExtension(values - {Key(f)}, ext, ExtensionFields), f) == Get(ext, f)
  {
    InitializedFields(values[Key(f) := IntToString(v)], ext, f);
    InitializedFields(values - {Key(f)}, ext, f);
    SetThenLookup(values, Key(f), v, Key(f));
  }

  /** The value the settings page shows before drawing: the stored value
      when the key is present, else the default when there is no
      configuration object, else the configuration's field. */
  function ShownValue(values: map<string, string>, f: SettingField, obj: Option<OutpostExtension>): (r: Option<int>)
    ensures Key(f) in values ==> r == ParseInt(values[Key(f)])
    ensures Key(f) !in values && obj.None? ==> r == AttributeDefault(f)
    ensures Key(f) !in values && obj.Some? ==> r == Some(Get(obj.value, f))
  {
    var stored := Lookup(values, Key(f));
    if stored.0 then stored.1 else if obj.None? then AttributeDefault(f) else Some(Get(obj.value, f))
  }

  /** The mod object: its settings and the outpost kinds found at load. */
  class Registry {
    const settings: ModSettings
    var outpostDefs: seq<string>

    constructor(settings: ModSettings, outpostDefs: seq<string>)
      ensures this.settings == settings && this.outpostDefs == outpostDefs
    {
      this.settings := settings;
      this.outpostDefs := outpostDefs;
    }

    /** The settings page's title, absent when no outpost kind exists. */
    function SettingsCategory(): (r: Option<string>)
      reads this
      ensures r.None? <==> outpostDefs == []
      ensures r.Some? ==> r.value == "Outposts.Settings.Title"
    {
      if |outpostDefs| > 0 then Some("Outposts.Settings.Title") else None
    }

    /** Sets every exposed field of the outpost's configuration by the
        precedence rule, from the stored settings of its kind. */
    method InitializeSettings(outpost: Outpost)
      requires outpost.ext.Some?
      modifies settings`settingsPerOutpost, outpost`ext
      ensures outpost.defName in settings.settingsPerOutpost && settings.settingsPerOutpost[outpost.defName] != null
      ensures outpost.ext ==
                Some(InitializedExtension(settings.settingsPerOutpost[outpost.defName].values,
                                          old(outpost.ext.value), ExtensionFields))
      ensures forall k :: k in old(settings.settingsPerOutpost) && old(settings.settingsPerOutpost)[k] != null ==>
                k in settings.settingsPerOutpost && settings.settingsPerOutpost[k] == old(settings.settingsPerOutpost)[k]
    {
      var s := settings.SettingsFor(outpost.defName);
      ghost var stored := settings.settingsPerOutpost;
      ghost var ext0 := outpost.ext.value;
      var fields := ExtensionFields;
      for i := 0 to |fields|
        invariant settings.settingsPerOutpost == stored
        invariant outpost.ext == Some(InitializedExtension(s.values, ext0, fields[..i]))
      {
        var f := fields[i];
        var stored := s.TryGetValue(Key(f));
        var ext := outpost.ext.value;
        var value := if stored.0 then stored.1.GetOr(0) else AttributeDefault(f).GetOr(Get(ext, f));
        outpost.ext := Some(Put(ext, f, value));
        assert fields[..i + 1][..i] == fields[..i];
      }
      assert fields[..|fields|] == fields;
    }

    method NotifySpawned(outpost: Outpost)
      requires outpost.ext.Some?
      modifies settings`settingsPerOutpost, outpost`ext
      ensures outpost.defName in settings.settingsPerOutpost && settings.settingsPerOutpost[outpost.defName] != null
      ensures outpost.ext ==
                Some(InitializedExtension(settings.settingsPerOutpost[outpost.defName].values,
                                          old(outpost.ext.value), ExtensionFields))
    {
      InitializeSettings(outpost);
    }

    /** Removing an outpost leaves the registry as it is. */
    method NotifyRemoved(outpost: Outpost)
      ensures unchanged(this) && unchanged(settings)
    {
    }

    /** The settings page's rule for one drawn field: a drawn value that is
        the attribute's default object (every default here is null, so a
        null value) removes the key; any other value is stored. */
    method DoSetting(s: OutpostSettings, f: SettingField, drawn: Option<int>)
      modifies s`values
      ensures drawn.None? ==> s.values == old(s.values) - {Key(f)} && !s.Has(Key(f))
      ensures drawn.Some? ==> s.values == old(s.values)[Key(f) := IntToString(drawn.value)] &&
                              s.TryGetValue(Key(f)) == (true, drawn)
    {
      if drawn == AttributeDefault(f) {
        if s.Has(Key(f)) {
          s.Remove(Key(f));
        }
      } else {
        s.Set(Key(f), drawn.value);
      }
    }

    /** Writing the settings re-initialises every outpost in the world. */
    method WriteSettings(outposts: seq<Outpost>)
      requires forall i :: 0 <= i < |outposts| ==> outposts[i].ext.Some?
      requires forall i, j :: 0 <= i < j < |outposts| ==> outposts[i] != outposts[j]
      modifies settings`settingsPerOutpost, set i | 0 <= i < |outposts| :: outposts[i]
      ensures forall i :: 0 <= i < |outposts| ==>
                outposts[i].defName in settings.settingsPerOutpost &&
                settings.settingsPerOutpost[outposts[i].defName] != null &&
                outposts[i].ext ==
                  Some(InitializedExtension(settings.settingsPerOutpost[outposts[i].defName].values,
                                            old(outposts[i].ext.value), ExtensionFields))
    {
      for i := 0 to |outposts|
        invariant forall j :: i <= j < |outposts| ==> outposts[j].ext == old(outposts[j].ext)
        invariant forall j :: 0 <= j < i ==>
                    outposts[j].defName in settings.settingsPerOutpost &&
                    settings.settingsPerOutpost[outposts[j].defName] != null &&
                    outposts[j].ext ==
                      Some(InitializedExtension(settings.settingsPerOutpost[outposts[j].defName].values,
                                                old(outposts[j].ext.value), ExtensionFields))
      {
        InitializeSettings(outposts[i]);
      }
    }
  }
}
