/** Loading the settings: values read from the configuration file, with the
    refresh interval, the configmap name and the region overridden from the
    environment. */
module Config {
  import opened Wrappers
  import opened Errors
  import opened Chars

  /** A scalar setting as the configuration file or the environment gives it. */
  datatype Value = Text(s: string) | Int(n: int) | Bool(b: bool) | Null

  /** The settings, keyed by name, as the loaded configuration holds them. */
  type Settings = map<string, Value>

  /** The process environment. */
  type Env = map<string, string>

  const RefreshKey := "refresh_interval"
  const ConfigMapNameKey := "configmap_name"
  const RegionKey := "region"

  const RefreshVar := "REFRESH_INTERVAL"
  const ConfigMapNameVar := "OS_PROM_CONFIGMAP_NAME"
  const RegionVar := "region"

  /** `os.getenv(v)` is truthy: the variable is set and not empty. */
  predicate IsSet(env: Env, v: string) {
    v in env && env[v] != ""
  }

  /** The settings that `get_config` returns.  The refresh interval's file
      value is looked up before the environment is consulted, so it must be
      present even when `REFRESH_INTERVAL` is set; the environment value, if
      any, replaces it as a string, even when empty.  The configmap name and
      the region come only from the environment and must be non-empty; the
      region is lower-cased.  Every other setting is the file's. */
  function GetConfig(file: Settings, env: Env): (r: Result<Settings, Error>)
    ensures r.Success? <==>
              RefreshKey in file && IsSet(env, ConfigMapNameVar) && IsSet(env, RegionVar)
    ensures RefreshKey !in file ==> r == Failure(MissingKey(RefreshKey))
    ensures RefreshKey in file && !IsSet(env, ConfigMapNameVar) ==> r == Failure(NoConfigMapName)
    ensures RefreshKey in file && IsSet(env, ConfigMapNameVar) && !IsSet(env, RegionVar) ==>
              r == Failure(NoRegion)
    ensures r.Success? ==>
              && r.value.Keys == file.Keys + {RefreshKey, ConfigMapNameKey, RegionKey}
              && (forall k :: k in file && k !in {RefreshKey, ConfigMapNameKey, RegionKey} ==>
                    r.value[k] == file[k])
              && r.value[ConfigMapNameKey] == Text(env[ConfigMapNameVar])
              && r.value[RegionKey] == Text(Lower(env[RegionVar]))
              && r.value[RefreshKey] ==
                   (if RefreshVar in env then Text(env[RefreshVar]) else file[RefreshKey])
  {
    if RefreshKey !in file then Failure(MissingKey(RefreshKey))
    else
      var refresh := if RefreshVar in env then Text(env[RefreshVar]) else file[RefreshKey];
      var withRefresh := file[RefreshKey := refresh];
      if !IsSet(env, ConfigMapNameVar) then Failure(NoConfigMapName)
      else
        var withName := withRefresh[ConfigMapNameKey := Text(env[ConfigMapNameVar])];
        if !IsSet(env, RegionVar) then Failure(NoRegion)
        else Success(withName[RegionKey := Text(Lower(env[RegionVar]))])
  }

  /** The configmap name and the region never fall back to the file: two
      configuration files that both carry a refresh interval load to the same
      outcome for these two settings, whatever else they hold. */
  lemma RequiredSettingsIgnoreFile(f1: Settings, f2: Settings, env: Env)
    requires RefreshKey in f1 && RefreshKey in f2
    ensures GetConfig(f1, env).Success? <==> GetConfig(f2, env).Success?
    ensures GetConfig(f1, env).Failure? ==> GetConfig(f1, env) == GetConfig(f2, env)
    ensures GetConfig(f1, env).Success? ==>
              && GetConfig(f1, env).value[ConfigMapNameKey] == GetConfig(f2, env).value[ConfigMapNameKey]
              && GetConfig(f1, env).value[RegionKey] == GetConfig(f2, env).value[RegionKey]
  {
  }

  /** The loaded region never holds an upper-case letter, and a region
      already in lower case is kept as given. */
  lemma LoadedRegionIsLowercase(file: Settings, env: Env)
    requires GetConfig(file, env).Success?
    ensures GetConfig(file, env).value[RegionKey].Text?
    ensures NoUpper(GetConfig(file, env).value[RegionKey].s)
    ensures NoUpper(env[RegionVar]) ==> GetConfig(file, env).value[RegionKey] == Text(env[RegionVar])
  {
    if NoUpper(env[RegionVar]) {
      LowerKeepsLowercase(env[RegionVar]);
    }
  }
}
