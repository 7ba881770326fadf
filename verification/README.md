# arista_sd service discovery, modelled in Dafny

`arista_sd` finds the Arista leaf switches of one region in a NetBox
inventory and publishes them as Prometheus scrape targets. It stores them in a
Kubernetes configmap. At startup it loads its settings from a YAML file, with
environment overrides, and validates the region. It then loops forever. Each
pass fetches the inventory, keeps every device named
`<region>-asw20<d>-bm<ddd>`, appends the DNS suffix `.cc.<region>.cloud.sap`,
clears the data of its copy of the configmap, stores a one-group target
document `[{targets: [...], labels: {job: <job>}}]` under one key, and sends
that copy back with a patch.

This project models the decision logic of `main.py` as pure functions over
immutable values:

- `wrappers.dfy`: `Option` and `Result`. A `Failure` stands for every
  `exit(1)` and every uncaught exception (`errors.dfy` lists them).
- `chars.dfy`: ASCII character classes and `str.lower`.
- `pattern.dfy`: the regular expressions the service uses. A pattern is a
  concatenation of character classes with fixed repetition counts, matched
  against the whole string as `re.fullmatch` does. The module also proves
  that the recursive matcher agrees with a character-by-character reading of
  the unrolled pattern.
- `config.dfy`: `get_config`, a pure function from the file's settings and
  the environment to the loaded settings or an error.
- `discovery.dfy`: the `discovery` class. It covers the region check, the DNS
  suffix and `filter_devices`. Region check and filter are written with the
  regex model, and their contracts use plain positional predicates
  (`IsRegion`, `IsDeviceName`). Lemmas prove that the two views agree.
- `document.dfy`: the target document, the JSON value it is serialized from,
  and a reader that inverts the serialization.
- `configmap.dfy`: `write_configmap`. The cluster's read and patch calls are
  function parameters.
- `service.dfy`: startup (`get_config`, then the `discovery` constructor) and
  one pass of the loop.

Three behaviours of the code are worth stating directly:

- A failed inventory request, a failed configmap read and a failed patch
  each end the process (main.py:50-51, 72-74, 87-89). The model makes each
  one a `Failure` of the pass.
- main.py has no file output; the configmap is the only place targets are
  written.
- `refresh_interval` looks up the file value first, because it is the
  default argument of `os.getenv`. The file must therefore have the key even
  when `REFRESH_INTERVAL` is set.

## Model

| member | source | states |
|---|---|---|
| Chars.Lower | main.py:103 | lower-casing keeps the length, maps each character on its own, and leaves no upper-case ASCII letter |
| Chars.LowerIdempotent | main.py:103 | lower-casing an already lower-cased region changes nothing |
| Config.GetConfig | main.py:91-108 | the load succeeds exactly when the file has a refresh interval and `OS_PROM_CONFIGMAP_NAME` and `region` are set and non-empty; each failure is reported in source order; on success the configmap name is the environment value, the region is the environment value lower-cased, the refresh interval is `REFRESH_INTERVAL` whenever that variable exists (even empty) and the file value otherwise, and every other setting is the file's |
| Config.RequiredSettingsIgnoreFile | main.py:96-106 | for files that both have a refresh interval, the configmap name and region never fall back to file values: such files load to the same outcome and the same two values |
| Config.LoadedRegionIsLowercase | main.py:102-103 | the loaded region holds no upper-case letter, and a lower-case environment region is kept verbatim |
| Pattern.FullMatchIsAcceptsAll | main.py:26 | a whole-string match of a fixed-width pattern succeeds exactly when the string has the unrolled pattern's length and each character is in its class |
| Pattern.FullMatchAppend | main.py:31 | a string matches a concatenated pattern exactly when its prefix of the first part's width matches the first part and the rest matches the second |
| Discovery.RegionPatternMatches | main.py:23 | `[a-z]{2}-[a-z]{2}-\d` fully matches exactly the 7-character strings with lower-case letters at 0, 1, 3, 4, dashes at 2 and 5 and a digit at 6 |
| Discovery.DevicePatternMatches | main.py:31 | `<region>-asw20\d-bm\d{3}` fully matches exactly the names that are the region, `-asw20`, a digit, `-bm` and three digits (length region + 13) |
| Discovery.BuiltNameIsDeviceName | main.py:31 | every name built as region + `-asw20` + digit + `-bm` + three digits is a device name of the region |
| Discovery.DeviceNameIsBuilt | main.py:31 | every device name of the region is built that way from its own digits |
| Discovery.CheckRegion | main.py:22-28 | a region passes exactly when it has the positional region shape; otherwise the error reports that region |
| Discovery.DnsSuffix | main.py:19 | the suffix is `.cc.`, then the region, then `.cloud.sap`, of length region + 14 |
| Discovery.DnsSuffixInjective | main.py:19 | different regions give different suffixes |
| Discovery.NameOfTargetRoundTrip | main.py:35 | removing the region's suffix from a target recovers the device name it was built from |
| Discovery.NewDiscovery | main.py:16-20 | construction succeeds exactly when region and inventory host are present and the region is a valid region string; the object then holds that region, the host and the region's suffix; a region of the wrong shape is reported as invalid |
| Discovery.Filter | main.py:30-39 | the output is never longer than the input, is empty for an empty input, and every target is region + 13 + suffix characters long |
| Discovery.FilterMembers | main.py:35 | a string is in the output exactly when it is the name plus suffix of some selected input device |
| Discovery.FilterAppend | main.py:35 | filtering a concatenation is the concatenation of the filtered parts |
| Discovery.FilterOne | main.py:35 | a single device yields its target when selected and nothing (no error) otherwise |
| Discovery.FilterPreservesOrder | main.py:35 | a selected device's target sits at the count of targets before it, so a later selected device's target comes strictly later |
| Discovery.FilterAt | main.py:35 | a selected device's target is at the index equal to the number of targets produced from the devices before it |
| Discovery.FilterPermutation | main.py:35 | reordering the inventory only reorders the targets (same multiset) |
| Discovery.FilterThree | main.py:35 | of three devices with the first two selected, the output is exactly the first two targets in order |
| Discovery.FilterExample | main.py:30-39 | for region `qa-de-1`, `qa-de-1-asw201-bm001`, `qa-de-1-asw202-bm999` and `other-host` give exactly the first two names with `.cc.qa-de-1.cloud.sap` appended |
| Document.BuildDocument | main.py:77-79 | the document serializes to a one-element list holding one object: `targets` is the given targets as strings, then `labels` is exactly `{job: job}` |
| Document.ToJson | main.py:81 | the JSON value is a list with one object per group, each with exactly two members, `targets` (the group's targets as strings, in order) and then `labels` |
| Document.DocumentRoundTrip | main.py:76-81 | reading back the JSON a document is serialized from gives the same document |
| Document.FromJsonExact | main.py:76-81 | a JSON value that reads as a document is exactly that document's serialization |
| ConfigMap.WriteConfigMap | main.py:57-89 | with the configmap name, namespace, job and data key present, a failed read is a configmap-unreadable error, and otherwise the object sent equals the stored one except that its data map holds exactly one key (the configured data key) whose document reads back as one group of the given targets labelled only with the job; a failed patch is a patch error |
| ConfigMap.WriteIgnoresPriorData | main.py:71-81 | stored objects that differ only in their data lead to the same object being sent: the object sent holds exactly one data key and drops the prior keys |
| ConfigMap.WriteIdempotent | main.py:68-89 | writing the same targets over the object a write produced sends the same object again |
| Service.Startup | main.py:130-132 | startup succeeds exactly when the file has a refresh interval and an inventory host, both environment variables are set, and the lower-cased region is valid; the discovery object then uses that lower-cased region |
| Service.StartupNeedsEnvironment | main.py:96-106 | for a file that has a refresh interval, a missing or empty configmap name, or else a missing or empty region, is the startup error, whatever else the file holds |
| Service.StartupRejectsInvalidRegion | main.py:26-28 | a region that is invalid after lower-casing stops startup with that lower-cased region reported |
| Service.Cycle | main.py:134-137 | a failed fetch is a fetch error; after a successful fetch the outcome is the configmap write of the filtered inventory; on a successful pass the object sent holds exactly the data key, holding one group of the filtered inventory labelled with the job |
| Service.FirstCycle | main.py:130-137 | a startup failure is the run's outcome; after a successful startup the outcome is one pass with the loaded settings and the constructed discovery object |
| Service.StartupFailureIgnoresCluster | main.py:130-135 | when startup fails, the outcome does not depend on the inventory or the cluster |
| Service.CyclePublishesSelected | main.py:35 | after a successful pass a target in the object sent names a selected inventory device, and every selected device's target is in it |

## Left out

- The inventory request in `get_devices` is not modelled: the URL with `q=asw20` and `manufacturer_id=6`, the process-wide switch-off of certificate validation, and `urlopen`. These are network I/O. The fetched device list, or the failure, is an input to `Service.Cycle`.
- Decoding the inventory response (`json.loads`, `['results']`, `item['name']`) is not modelled. Devices are records that always carry a string name.
- Kubernetes client set-up (`load_kube_config` falling back to `load_incluster_config`) is not modelled. The read and patch calls are function parameters, and their failures are error outcomes.
- The object the cluster stores after the patch is not modelled. `patch_namespaced_config_map` (main.py:85) sends a patch, not a replacement, and a merge patch keeps server-side data keys that the body leaves out. The model only states what the object sent holds.
- The text `json.dumps(..., indent=2)` renders is not modelled. The configmap data holds the JSON value that text would be rendered from.
- YAML parsing is not modelled: the file is given as a settings map. A lookup of an absent setting is an error outcome, as a dictionary lookup raises.
- Setting values are strings, integers, booleans or null. Other YAML values are not modelled.
- ConfigMap.WriteConfigMap: a configmap name, namespace or data key that is not a string is an error outcome. The source would pass such a value on to the Kubernetes client, whose behaviour is not part of this model.
- Discovery.NewDiscovery: a region value that is not a string is an error outcome. The source would raise from `re.fullmatch`.
- Discovery.RegionPatternMatches: `\d` is modelled as ASCII `0`-`9`. Python also matches other Unicode decimal digits.
- Discovery.DevicePatternMatches: the same ASCII simplification of `\d` applies.
- Chars.Lower: only ASCII letters are lower-cased. Python's `str.lower` also maps other Unicode letters, some to several characters.
- The refresh interval from `REFRESH_INTERVAL` is kept as a string. The `time.sleep` that consumes it, the endless loop, logging, `enable_logging` and the argument parser are not modelled: they are timing and console plumbing.
- Running the filter twice on the same list gives the same output. This needs no lemma, because every Dafny function is deterministic.
