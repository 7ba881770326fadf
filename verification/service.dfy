/** The service as a whole: loading the settings and building the discovery
    object at startup, then one pass of the loop that fetches the inventory,
    filters it and writes the configmap. */
module Service {
  import opened Wrappers
  import opened Errors
  import opened Chars
  import opened Config
  import opened Document
  import opened Discovery
  import opened ConfigMap

  /** Startup: `get_config` then the `discovery` constructor.  Any failure
      ends the process before the inventory is queried. */
  function Startup(file: Settings, env: Env): (r: Result<(Settings, Discovery), Error>)
    ensures r.Success? <==>
              && RefreshKey in file && NetboxKey in file
              && IsSet(env, ConfigMapNameVar) && IsSet(env, RegionVar)
              && IsRegion(Lower(env[RegionVar]))
    ensures r.Success? ==>
              && Valid(r.value.1)
              && r.value.1.region == Lower(env[RegionVar])
              && r.value.0 == GetConfig(file, env).value
  {
    var settings :- GetConfig(file, env);
    var d :- NewDiscovery(settings);
    Success((settings, d))
  }

  /** Once the file has a refresh interval, the environment alone decides
      whether startup fails for a missing or empty configmap name or region,
      whatever else the file holds. */
  lemma StartupNeedsEnvironment(file: Settings, env: Env)
    requires RefreshKey in file
    requires !IsSet(env, ConfigMapNameVar) || !IsSet(env, RegionVar)
    ensures Startup(file, env) == Failure(if !IsSet(env, ConfigMapNameVar) then NoConfigMapName else NoRegion)
  {
  }

  /** A region that is not valid once lower-cased stops startup and is
      reported as it was checked. */
  lemma StartupRejectsInvalidRegion(file: Settings, env: Env)
    requires RefreshKey in file && NetboxKey in file
    requires IsSet(env, ConfigMapNameVar) && IsSet(env, RegionVar)
    requires !IsRegion(Lower(env[RegionVar]))
    ensures Startup(file, env) == Failure(InvalidRegion(Lower(env[RegionVar])))
  {
  }

  /** One pass of the loop.  The fetched inventory is an input: `Failure`
      stands for a request or decoding error, which the source does not
      catch. */
  function Cycle(settings: Settings, d: Discovery, fetched: Result<seq<Device>, string>, read: Reader, patch: Patcher)
    : (r: Result<ConfigMapObject, Error>)
    requires Valid(d)
    ensures fetched.Failure? ==> r == Failure(FetchFailed(fetched.error))
    ensures fetched.Success? ==> r == WriteConfigMap(settings, Filter(d, fetched.value), read, patch)
    ensures r.Success? ==>
              && fetched.Success?
              && HasWriteSettings(settings)
              && r.value.data.Keys == {settings[DataKey].s}
              && FromJson(r.value.data[settings[DataKey].s])
                   == Some([TargetGroup(Filter(d, fetched.value), [(JobLabel, settings[JobKey])])])
  {
    if fetched.Failure? then Failure(FetchFailed(fetched.error))
    else
      var targets := Filter(d, fetched.value);
      WriteConfigMap(settings, targets, read, patch)
  }

  /** Startup followed by the first pass of the loop. */
  function FirstCycle(file: Settings, env: Env, fetched: Result<seq<Device>, string>, read: Reader, patch: Patcher)
    : (r: Result<ConfigMapObject, Error>)
    ensures Startup(file, env).Failure? ==> r == Failure(Startup(file, env).error)
    ensures Startup(file, env).Success? ==>
              r == Cycle(Startup(file, env).value.0, Startup(file, env).value.1, fetched, read, patch)
  {
    var (settings, d) :- Startup(file, env);
    Cycle(settings, d, fetched, read, patch)
  }

  /** A startup failure does not depend on the inventory or the cluster:
      nothing is fetched, read or patched. */
  lemma StartupFailureIgnoresCluster(file: Settings, env: Env,
                                     f1: Result<seq<Device>, string>, r1: Reader, p1: Patcher,
                                     f2: Result<seq<Device>, string>, r2: Reader, p2: Patcher)
    requires Startup(file, env).Failure?
    ensures FirstCycle(file, env, f1, r1, p1) == FirstCycle(file, env, f2, r2, p2)
  {
  }

  /** A published target names a selected device of the inventory, and
      every selected device is published. */
  lemma CyclePublishesSelected(settings: Settings, d: Discovery, fetched: Result<seq<Device>, string>,
                               read: Reader, patch: Patcher, t: string)
    requires Valid(d)
    requires Cycle(settings, d, fetched, read, patch).Success?
    ensures var doc := FromJson(Cycle(settings, d, fetched, read, patch).value.data[settings[DataKey].s]).value;
            t in doc[0].targets <==>
              exists i :: 0 <= i < |fetched.value| && Selects(d, fetched.value[i])
                          && t == fetched.value[i].name + d.dnsSuffix
  {
    FilterMembers(d, fetched.value, t);
  }
}
