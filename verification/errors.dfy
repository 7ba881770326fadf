/** Every way the modelled part of the service stops.  In the source each of
    these is either a logged `exit(1)` or an exception that nothing catches;
    both end the process. */
module Errors {

  datatype Error =
    | MissingKey(key: string)        // a settings lookup of an absent key (KeyError)
    | NotText(key: string)           // a setting used as a name or key is not a string
    | NoConfigMapName                // OS_PROM_CONFIGMAP_NAME missing or empty
    | NoRegion                       // region missing or empty in the environment
    | InvalidRegion(region: string)  // the region does not match the region pattern
    | FetchFailed(cause: string)     // the inventory request or its decoding failed
    | ConfigMapUnreadable(cause: string)  // reading the target configmap failed
    | PatchFailed(cause: string)     // writing the configmap back failed
}
