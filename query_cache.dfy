/**
 * The client-side request cache, reduced to what the pages do with it:
 * after a successful mutation they mark one cached query as stale, so that
 * it is fetched again. Fetching, deduplication and retries are not modelled.
 */
module QueryCache {

  /** The query keys used by the pages in this model. */
  datatype QueryKey =
    | Recipients
    | Devices
    | DeviceInterfaces(ip: string)
    | ActiveAlerts

  /** `invalidateQueries({ queryKey: key })`: `key` becomes stale, nothing else changes. */
  function Invalidate(stale: set<QueryKey>, key: QueryKey): (r: set<QueryKey>)
    ensures key in r
    ensures stale <= r
    ensures forall k :: k in r && k !in stale ==> k == key
  {
    stale + {key}
  }
}
