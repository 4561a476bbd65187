/**
 * Configuration: the built-in defaults, the recursive merge that lays a user's
 * configuration over them, and the lookup that prefers a command-line value.
 * Reading and parsing the TOML file is not part of this model.
 */
module Config {
  import opened Wrappers

  /** A configuration value: what a TOML document (or the built-in table) can hold. */
  datatype Value = Null | Bool(b: bool) | Str(s: string) | List(items: seq<Value>) | Dict(entries: map<string, Value>)

  /**
   * `_deep_merge`: the keys of both; an override value replaces the base value
   * unless both are tables, which are merged recursively; keys only in `base`
   * keep their value.
   */
  function Merge(base: map<string, Value>, override: map<string, Value>): (r: map<string, Value>)
    decreases Dict(override)
  {
    map k | k in base.Keys + override.Keys ::
      if k in override then
        if k in base && base[k].Dict? && override[k].Dict? then Dict(Merge(base[k].entries, override[k].entries))
        else override[k]
      else base[k]
  }

  /** Both values under a key are tables, so the merge recurses into them. */
  predicate BothTables(base: map<string, Value>, override: map<string, Value>, k: string)
  {
    k in base && k in override && base[k].Dict? && override[k].Dict?
  }

  /**
   * `_deep_merge`: copies `base`, then assigns each override entry in turn,
   * recursing where both sides hold a table.  The arguments are values, so
   * neither is changed.
   */
  method DeepMerge(base: map<string, Value>, override: map<string, Value>) returns (result: map<string, Value>)
    ensures result == Merge(base, override)
    ensures result.Keys == base.Keys + override.Keys
    ensures forall k :: k in override && !BothTables(base, override, k) ==> result[k] == override[k]
    ensures forall k :: BothTables(base, override, k) ==>
      result[k] == Dict(Merge(base[k].entries, override[k].entries))
    ensures forall k :: k in base && k !in override ==> result[k] == base[k]
    decreases Dict(override)
  {
    result := base;
    var keys := override.Keys;
    ghost var done: set<string> := {};
    while keys != {}
      invariant keys + done == override.Keys && keys !! done
      invariant result.Keys == base.Keys + done
      invariant forall k :: k in done ==> result[k] == Merge(base, override)[k]
      invariant forall k :: k in base && k !in done ==> result[k] == base[k]
      decreases keys
    {
      var key :| key in keys;
      var value := override[key];
      if key in result && result[key].Dict? && value.Dict? {
        var merged := DeepMerge(result[key].entries, value.entries);
        result := result[key := Dict(merged)];
      } else {
        result := result[key := value];
      }
      keys := keys - {key};
      done := done + {key};
    }
  }

  /** Merging with an empty override gives back the base. */
  lemma MergeEmptyOverride(base: map<string, Value>)
    ensures Merge(base, map[]) == base
  {
  }

  /** Merging into an empty base gives back the override. */
  lemma MergeEmptyBase(override: map<string, Value>)
    ensures Merge(map[], override) == override
  {
  }

  /** A table merged with itself is unchanged, at every depth. */
  lemma {:induction false} MergeSelf(m: map<string, Value>)
    ensures Merge(m, m) == m
    decreases Dict(m)
  {
    forall k | k in m ensures Merge(m, m)[k] == m[k] {
      if m[k].Dict? {
        MergeSelf(m[k].entries);
      }
    }
  }

  /** Laying the same override on twice is the same as laying it on once. */
  lemma {:induction false} MergeIdempotent(base: map<string, Value>, override: map<string, Value>)
    ensures Merge(Merge(base, override), override) == Merge(base, override)
    decreases Dict(override)
  {
    var m := Merge(base, override);
    forall k | k in override ensures Merge(m, override)[k] == m[k] {
      if BothTables(base, override, k) {
        MergeIdempotent(base[k].entries, override[k].entries);
      } else if override[k].Dict? {
        MergeSelf(override[k].entries);
      }
    }
  }

  /**
   * `get_default`: a command-line value that is not `None` is returned as is;
   * otherwise the value under `key` in the `defaults` table, or `None` when
   * the table or the key is absent.  A `defaults` entry that is not a table
   * has no `get`, so the lookup raises.
   */
  function GetDefault(config: map<string, Value>, key: string, cliValue: Option<string>): (r: Outcome<Value>)
    ensures cliValue.Some? ==> r == Done(Str(cliValue.value))
    ensures r.Raised? <==> cliValue.None? && "defaults" in config && !config["defaults"].Dict?
    ensures cliValue.None? && r.Done? && r.value != Null ==>
      "defaults" in config && key in config["defaults"].entries && config["defaults"].entries[key] == r.value
    ensures cliValue.None? && "defaults" !in config ==> r == Done(Null)
    ensures cliValue.None? && "defaults" in config && config["defaults"].Dict? ==>
      r == Done(if key in config["defaults"].entries then config["defaults"].entries[key] else Null)
  {
    if cliValue.Some? then Done(Str(cliValue.value))
    else if "defaults" !in config then Done(Null)
    else match config["defaults"]
      case Dict(defaults) => Done(if key in defaults then defaults[key] else Null)
      case _ => Raised
  }

  /** The `defaults` table of `DEFAULT_CONFIG`. */
  const DefaultDefaults: map<string, Value> := map[
    "company" := Null, "note_prefix" := Null, "websites" := List([]), "tags" := List([])]

  /** `DEFAULT_CONFIG`: the built-in configuration a user's file is merged over. */
  const DefaultConfig: map<string, Value> := map[
    "defaults" := Dict(DefaultDefaults),
    "parsers" := Dict(map[
      "email" := Bool(true), "phone" := Bool(true), "website" := Bool(true),
      "title" := Bool(true), "name" := Bool(true), "company" := Bool(true)]),
    "behavior" := Dict(map["auto_infer_company" := Bool(true), "strip_pronouns" := Bool(true)])]

  /** All six parser toggles are on and there is no default company. */
  lemma DefaultConfigShape()
    ensures "parsers" in DefaultConfig && DefaultConfig["parsers"].Dict?
    ensures var parsers := DefaultConfig["parsers"].entries;
      parsers.Keys == {"email", "phone", "website", "title", "name", "company"} &&
      forall k :: k in parsers ==> parsers[k] == Bool(true)
    ensures GetDefault(DefaultConfig, "company", None) == Done(Null)
  {
  }

  /**
   * `load_config`: the defaults, with the user's file merged over them when one
   * was found and read.  `None` stands for every case in which the defaults are
   * returned as they are: no TOML reader, no file, or an error while reading it.
   */
  function LoadConfig(user: Option<map<string, Value>>): (config: map<string, Value>)
    ensures user.None? ==> config == DefaultConfig
    ensures user.Some? ==> config.Keys == DefaultConfig.Keys + user.value.Keys
    ensures user.Some? ==> forall k :: k in DefaultConfig && k !in user.value ==> config[k] == DefaultConfig[k]
  {
    match user
    case None => DefaultConfig
    case Some(u) => Merge(DefaultConfig, u)
  }

  /**
   * After a user's configuration is merged over the defaults, a key the user
   * set in their `defaults` table is what the lookup returns.
   */
  lemma UserDefaultWins(user: map<string, Value>, key: string)
    requires "defaults" in user && user["defaults"].Dict? && key in user["defaults"].entries
    ensures GetDefault(LoadConfig(Some(user)), key, None) == Done(user["defaults"].entries[key])
  {
    var merged := LoadConfig(Some(user));
    assert BothTables(DefaultConfig, user, "defaults");
    assert merged["defaults"] == Dict(Merge(DefaultDefaults, user["defaults"].entries));
    assert key in DefaultDefaults ==> !DefaultDefaults[key].Dict?;
  }

  /** A default the user's configuration does not set survives the merge. */
  lemma UnsetDefaultKept(user: Option<map<string, Value>>, key: string)
    requires key in DefaultDefaults
    requires user.Some? ==>
      ("defaults" !in user.value || (user.value["defaults"].Dict? && key !in user.value["defaults"].entries))
    ensures GetDefault(LoadConfig(user), key, None) == Done(DefaultDefaults[key])
  {
    var merged := LoadConfig(user);
    if user.Some? && "defaults" in user.value {
      assert BothTables(DefaultConfig, user.value, "defaults");
      assert merged["defaults"] == Dict(Merge(DefaultDefaults, user.value["defaults"].entries));
    } else {
      assert merged["defaults"] == Dict(DefaultDefaults);
    }
  }
}
