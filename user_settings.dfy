/** user_settings.py: each user's choice of chat model and reasoning effort,
    kept in a JSON settings file keyed by the decimal user id, with an
    in-process cache of validated configurations in front of it. */
module UserSettings {
  import opened Json
  import opened Text

  const AllowedModels: seq<string> := ["gpt-5-nano", "gpt-5-mini", "gpt-5", "gpt-5.2", "gpt-4o", "gpt-4o-mini"]
  const AllowedEfforts: seq<string> := ["minimal", "low", "medium", "high"]
  const DefaultModel := "gpt-5-nano"
  const DefaultEffort := "minimal"

  /** One user's stored settings: a JSON object. */
  type Entry = map<string, Scalar>

  /** The whole settings file: an object from `str(user_id)` to entries. */
  type Settings = map<string, Entry>

  datatype UserConfig = UserConfig(model: string, effort: string)

  /** `UserConfig()`: the dataclass defaults. */
  const DefaultConfig := UserConfig(DefaultModel, DefaultEffort)

  /** `v in ALLOWED_MODELS` for any JSON value: only one of the listed strings. */
  predicate AllowedModel(v: Scalar)
  {
    v.Str? && v.s in AllowedModels
  }

  /** `v in ALLOWED_EFFORTS` for any JSON value. */
  predicate AllowedEffort(v: Scalar)
  {
    v.Str? && v.s in AllowedEfforts
  }

  /** Both fields of the configuration are among the allowed values. */
  predicate Allowed(c: UserConfig)
  {
    c.model in AllowedModels && c.effort in AllowedEfforts
  }

  /** `UserConfig.from_dict(data)`: each field is taken from the entry when
      it holds an allowed value, and is the default otherwise, whether the
      key is missing or its value unknown or not a string. */
  function FromDict(data: Entry): (c: UserConfig)
    ensures Allowed(c)
    ensures c.model == (if "model" in data && AllowedModel(data["model"]) then data["model"].s else DefaultModel)
    ensures c.effort == (if "effort" in data && AllowedEffort(data["effort"]) then data["effort"].s else DefaultEffort)
  {
    var model := if "model" in data then data["model"] else Str(DefaultModel);
    var effort := if "effort" in data then data["effort"] else Str(DefaultEffort);
    UserConfig(if AllowedModel(model) then model.s else DefaultModel,
               if AllowedEffort(effort) then effort.s else DefaultEffort)
  }

  /** `UserConfig.to_dict()`. */
  function ToDict(c: UserConfig): (d: Entry)
    ensures d.Keys == {"model", "effort"}
  {
    map["model" := Str(c.model), "effort" := Str(c.effort)]
  }

  /** An allowed configuration survives being written and read back. */
  lemma FromDictToDict(c: UserConfig)
    requires Allowed(c)
    ensures FromDict(ToDict(c)) == c
  {
    var d := ToDict(c);
    assert d["model"] == Str(c.model) && d["effort"] == Str(c.effort);
  }

  /** A configuration with a value outside the lists does not survive:
      reading it back gives something else. */
  lemma DisallowedNotReloaded(c: UserConfig)
    requires !Allowed(c)
    ensures FromDict(ToDict(c)) != c
  {
  }

  /** An entry with no usable values, such as that of an unknown user, reads
      as the defaults. */
  lemma EmptyEntryIsDefault()
    ensures FromDict(map[]) == DefaultConfig
  {
  }

  /** What the settings file on disk looks like. */
  datatype SettingsFile = Missing | Unreadable | Stored(settings: Settings)

  /** `load_user_settings()`: the file's object, or {} when it does not exist
      or cannot be read or parsed. */
  function Load(f: SettingsFile): (s: Settings)
    ensures !f.Stored? ==> s == map[]
    ensures f.Stored? ==> s == f.settings
  {
    match f
    case Stored(s) => s
    case _ => map[]
  }

  /** `str(user_id)`, the key of a user's entry. */
  function UserKey(u: int): string
  {
    IntToString(u)
  }

  /** `settings.get(str(user_id), {})`. */
  function EntryOf(s: Settings, u: int): Entry
  {
    if UserKey(u) in s then s[UserKey(u)] else map[]
  }

  /** `get_user_setting`'s answer: `entry.get(key, default)`. */
  function SettingOf(s: Settings, u: int, key: string, default: Scalar): Scalar
  {
    if key in EntryOf(s, u) then EntryOf(s, u)[key] else default
  }

  /** The settings after `settings[str(user_id)][key] = value`, creating the
      user's entry when it is missing. */
  function WithSetting(s: Settings, u: int, key: string, value: Scalar): Settings
  {
    s[UserKey(u) := EntryOf(s, u)[key := value]]
  }

  /** Whether `set_user_setting` accepts the pair: only `model` and `effort`
      are checked, and any other key takes any value. */
  predicate SettingAccepted(key: string, value: Scalar)
  {
    (key == "model" ==> AllowedModel(value)) && (key == "effort" ==> AllowedEffort(value))
  }

  /** Writing one setting is read back by that user and key, and leaves
      every other key of that user and every other user's entry as it was. */
  lemma WithSettingEffect(s: Settings, u: int, key: string, value: Scalar)
    ensures EntryOf(WithSetting(s, u, key, value), u)[key] == value
    ensures forall k :: k != key ==> SettingOf(WithSetting(s, u, key, value), u, k, Null) == SettingOf(s, u, k, Null)
    ensures forall v :: v != u ==> EntryOf(WithSetting(s, u, key, value), v) == EntryOf(s, v)
  {
    forall v | v != u
      ensures EntryOf(WithSetting(s, u, key, value), v) == EntryOf(s, v)
    {
      if UserKey(v) == UserKey(u) {
        IntToStringInjective(v, u);
      }
    }
  }

  /** Setting an allowed model changes the user's validated model to it and
      keeps the validated effort. */
  lemma SetModelTakesEffect(s: Settings, u: int, m: string)
    requires m in AllowedModels
    ensures FromDict(EntryOf(WithSetting(s, u, "model", Str(m)), u)) == FromDict(EntryOf(s, u)).(model := m)
  {
    var e := EntryOf(WithSetting(s, u, "model", Str(m)), u);
    assert e == EntryOf(s, u)["model" := Str(m)];
  }

  /** Setting an allowed effort changes the user's validated effort to it
      and keeps the validated model. */
  lemma SetEffortTakesEffect(s: Settings, u: int, effort: string)
    requires effort in AllowedEfforts
    ensures FromDict(EntryOf(WithSetting(s, u, "effort", Str(effort)), u)) == FromDict(EntryOf(s, u)).(effort := effort)
  {
    var e := EntryOf(WithSetting(s, u, "effort", Str(effort)), u);
    assert e == EntryOf(s, u)["effort" := Str(effort)];
  }

  /** A write after a failed read starts from {}: the file then holds only
      the writing user's entry, and every other user's settings are gone. */
  lemma WriteAfterUnreadableDropsOthers(u: int, key: string, value: Scalar)
    ensures WithSetting(Load(Unreadable), u, key, value).Keys == {UserKey(u)}
    ensures forall v :: v != u ==> EntryOf(WithSetting(Load(Unreadable), u, key, value), v) == map[]
  {
    WithSettingEffect(map[], u, key, value);
  }

  /** The module's state: the settings file and `_user_config_cache`. The
      `loads` counter records how often the file has been read. */
  class SettingsStore {
    var file: SettingsFile
    var cache: map<int, UserConfig>
    var loads: nat

    /** Every cached configuration is what the file would give for that
        user now. */
    predicate Coherent()
      reads this
    {
      forall u :: u in cache ==> cache[u] == FromDict(EntryOf(Load(file), u))
    }

    /** A fresh process: an empty cache over the file as it is on disk. */
    constructor (file: SettingsFile)
      ensures this.file == file && cache == map[] && loads == 0
      ensures Coherent()
    {
      this.file := file;
      cache := map[];
      loads := 0;
    }

    /** `load_user_settings()`, counted. */
    method LoadSettings() returns (s: Settings)
      modifies this
      ensures s == Load(file)
      ensures file == old(file) && cache == old(cache) && loads == old(loads) + 1
    {
      loads := loads + 1;
      s := Load(file);
    }

    /** `get_user_config(user_id)`: a cache hit is returned without reading
        the file; a miss reads the file, validates the user's entry, and
        caches the result. Over a coherent cache the answer is what the
        file gives, and the cache stays coherent. */
    method GetUserConfig(u: int) returns (c: UserConfig)
      modifies this
      ensures file == old(file)
      ensures u in old(cache) ==> c == old(cache)[u] && cache == old(cache) && loads == old(loads)
      ensures u !in old(cache) ==>
                c == FromDict(EntryOf(Load(file), u)) && cache == old(cache)[u := c] && loads == old(loads) + 1
      ensures old(Coherent()) ==> Coherent() && c == FromDict(EntryOf(Load(file), u)) && Allowed(c)
    {
      if u in cache {
        return cache[u];
      }
      var settings := LoadSettings();
      c := FromDict(EntryOf(settings, u));
      cache := cache[u := c];
    }

    /** `set_user_config(user_id, config)`: caches the configuration as
        given, with no validation, and writes its dict as the user's entry.
        The cache stays coherent when the configuration is allowed. */
    method SetUserConfig(u: int, c: UserConfig)
      modifies this
      ensures cache == old(cache)[u := c]
      ensures file == Stored(Load(old(file))[UserKey(u) := ToDict(c)])
      ensures loads == old(loads) + 1
      ensures old(Coherent()) && Allowed(c) ==> Coherent()
    {
      cache := cache[u := c];
      var settings := LoadSettings();
      file := Stored(settings[UserKey(u) := ToDict(c)]);
      forall v | v in cache && old(Coherent()) && Allowed(c)
        ensures cache[v] == FromDict(EntryOf(Load(file), v))
      {
        if v == u {
          FromDictToDict(c);
        } else if UserKey(v) == UserKey(u) {
          IntToStringInjective(v, u);
        }
      }
    }

    /** `get_user_setting(user_id, key, default)`: reads the file every time. */
    method GetUserSetting(u: int, key: string, default: Scalar) returns (v: Scalar)
      modifies this
      ensures file == old(file) && cache == old(cache) && loads == old(loads) + 1
      ensures v == SettingOf(Load(file), u, key, default)
      ensures key !in EntryOf(Load(file), u) ==> v == default
    {
      var settings := LoadSettings();
      var entry := EntryOf(settings, u);
      v := if key in entry then entry[key] else default;
    }

    /** `set_user_setting(user_id, key, value)`: refuses a disallowed model or
        effort and changes nothing; otherwise writes the one setting into
        the user's entry and drops the user's cached configuration. The
        cache stays coherent either way. */
    method SetUserSetting(u: int, key: string, value: Scalar) returns (ok: bool)
      modifies this
      ensures ok <==> SettingAccepted(key, value)
      ensures !ok ==> file == old(file) && cache == old(cache) && loads == old(loads)
      ensures ok ==> file == Stored(WithSetting(Load(old(file)), u, key, value))
                     && cache == old(cache) - {u} && loads == old(loads) + 1
      ensures old(Coherent()) ==> Coherent()
    {
      if key == "model" && !AllowedModel(value) {
        return false;
      }
      if key == "effort" && !AllowedEffort(value) {
        return false;
      }
      var settings := LoadSettings();
      var entry := EntryOf(settings, u);
      settings := settings[UserKey(u) := entry[key := value]];
      file := Stored(settings);
      cache := cache - {u};
      WithSettingEffect(Load(old(file)), u, key, value);
      ok := true;
    }

    /** `set_user_model(user_id, model)`. */
    method SetUserModel(u: int, model: string) returns (ok: bool)
      modifies this
      ensures ok <==> model in AllowedModels
      ensures !ok ==> file == old(file) && cache == old(cache)
      ensures ok ==> file == Stored(WithSetting(Load(old(file)), u, "model", Str(model))) && cache == old(cache) - {u}
      ensures old(Coherent()) ==> Coherent()
    {
      ok := SetUserSetting(u, "model", Str(model));
    }

    /** `set_user_effort(user_id, effort)`. */
    method SetUserEffort(u: int, effort: string) returns (ok: bool)
      modifies this
      ensures ok <==> effort in AllowedEfforts
      ensures !ok ==> file == old(file) && cache == old(cache)
      ensures ok ==> file == Stored(WithSetting(Load(old(file)), u, "effort", Str(effort))) && cache == old(cache) - {u}
      ensures old(Coherent()) ==> Coherent()
    {
      ok := SetUserSetting(u, "effort", Str(effort));
    }
  }
}
