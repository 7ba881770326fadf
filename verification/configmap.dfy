/** `write_configmap`: an existing Kubernetes configmap is read, the data of
    the copy that was read is replaced by the target document, and that copy
    is sent back with a patch.  What the cluster stores after the patch is
    not modelled.  The cluster is a pair of functions: the read of a named
    configmap in a namespace, and the patch that sends an object back
    (`Some(cause)` when it fails). */
module ConfigMap {
  import opened Wrappers
  import opened Errors
  import opened Config
  import opened Document

  /** A configmap as read from the cluster: its identity, the rest of its
      metadata, and its data map. */
  datatype ConfigMapObject = ConfigMapObject(
    name: string,
    namespace: string,
    metadata: map<string, string>,
    data: map<string, Json>)

  type Reader = (string, string) -> Result<ConfigMapObject, string>
  type Patcher = (string, string, ConfigMapObject) -> Option<string>

  const NamespaceKey := "namespace"
  const JobKey := "job"
  const DataKey := "configmap"

  /** A setting that must be present. */
  function Setting(settings: Settings, key: string): (r: Result<Value, Error>)
    ensures r.Success? <==> key in settings
    ensures r.Success? ==> r.value == settings[key]
    ensures r.Failure? ==> r.error == MissingKey(key)
  {
    if key in settings then Success(settings[key]) else Failure(MissingKey(key))
  }

  /** A setting that must be present and a string. */
  function TextSetting(settings: Settings, key: string): (r: Result<string, Error>)
    ensures r.Success? <==> key in settings && settings[key].Text?
    ensures r.Success? ==> settings[key] == Text(r.value)
  {
    var v :- Setting(settings, key);
    if v.Text? then Success(v.s) else Failure(NotText(key))
  }

  /** All settings `write_configmap` uses are present, the names and the
      data key as strings. */
  predicate HasWriteSettings(settings: Settings) {
    && ConfigMapNameKey in settings && settings[ConfigMapNameKey].Text?
    && NamespaceKey in settings && settings[NamespaceKey].Text?
    && JobKey in settings
    && DataKey in settings && settings[DataKey].Text?
  }

  /** Reads the configmap named by the settings, clears its data, stores the
      document under the configured key and patches the object back.  The
      result is the object sent with the patch. */
  function WriteConfigMap(settings: Settings, targets: seq<string>, read: Reader, patch: Patcher)
    : (r: Result<ConfigMapObject, Error>)
    ensures r.Success? ==> HasWriteSettings(settings)
    ensures HasWriteSettings(settings) ==>
              var name, ns := settings[ConfigMapNameKey].s, settings[NamespaceKey].s;
              && (read(name, ns).Failure? ==> r == Failure(ConfigMapUnreadable(read(name, ns).error)))
              && (read(name, ns).Success? ==>
                    var sent := read(name, ns).value.(data := map[settings[DataKey].s :=
                                  ToJson(BuildDocument(targets, settings[JobKey]))]);
                    && (patch(name, ns, sent).None? ==> r == Success(sent))
                    && (patch(name, ns, sent).Some? ==> r == Failure(PatchFailed(patch(name, ns, sent).value))))
    ensures r.Success? ==>
              var name, ns := settings[ConfigMapNameKey].s, settings[NamespaceKey].s;
              var key := settings[DataKey].s;
              && read(name, ns).Success?
              && r.value.data.Keys == {key}
              && FromJson(r.value.data[key]) == Some([TargetGroup(targets, [(JobLabel, settings[JobKey])])])
              && r.value.(data := map[]) == read(name, ns).value.(data := map[])
              && patch(name, ns, r.value).None?
  {
    var name :- TextSetting(settings, ConfigMapNameKey);
    var ns :- TextSetting(settings, NamespaceKey);
    var stored := read(name, ns);
    if stored.Failure? then Failure(ConfigMapUnreadable(stored.error))
    else
      var cleared := stored.value.(data := map[]);
      var job :- Setting(settings, JobKey);
      var key :- TextSetting(settings, DataKey);
      var doc := BuildDocument(targets, job);
      DocumentRoundTrip(doc);
      var updated := cleared.(data := cleared.data[key := ToJson(doc)]);
      match patch(name, ns, updated)
      case Some(cause) => Failure(PatchFailed(cause))
      case None => Success(updated)
  }

  /** Whatever the configmap held before, the same object is sent: it holds
      exactly one data key and drops the prior keys. */
  lemma WriteIgnoresPriorData(settings: Settings, targets: seq<string>, read1: Reader, read2: Reader, patch: Patcher)
    requires HasWriteSettings(settings)
    requires var name, ns := settings[ConfigMapNameKey].s, settings[NamespaceKey].s;
             && read1(name, ns).Success? && read2(name, ns).Success?
             && read1(name, ns).value.(data := map[]) == read2(name, ns).value.(data := map[])
    ensures WriteConfigMap(settings, targets, read1, patch) == WriteConfigMap(settings, targets, read2, patch)
  {
  }

  /** Writing the same targets over the object a write produced sends the
      same object again: publishing is idempotent. */
  lemma WriteIdempotent(settings: Settings, targets: seq<string>, read: Reader, patch: Patcher, again: Reader)
    requires WriteConfigMap(settings, targets, read, patch).Success?
    requires again(settings[ConfigMapNameKey].s, settings[NamespaceKey].s)
               == Success(WriteConfigMap(settings, targets, read, patch).value)
    ensures WriteConfigMap(settings, targets, again, patch) == WriteConfigMap(settings, targets, read, patch)
  {
  }
}
