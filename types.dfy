/**
 * Record shapes the dashboard receives from the monitoring backend
 * (src/types/index.ts), plus the small enumerations the pages use.
 * Numbers the pages only display are kept as `real`; the two numbers
 * whose decimal text matters (history cells, threshold input text) carry
 * that text instead, because JavaScript's number-to-string conversion is
 * not part of this model.
 */
module Types {

  datatype Option<T> = None | Some(value: T)

  /** The statuses a status badge or dot can show: 'up' | 'down' | 'warning'. */
  datatype Status = Up | Down | Warning

  /** The `variant` values handed to the badge component. */
  datatype Variant = Default | Success | Destructive | WarningVariant
  {
    function Name(): string {
      match this
      case Default => "default"
      case Success => "success"
      case Destructive => "destructive"
      case WarningVariant => "warning"
    }
  }

  datatype Alert = Alert(
    device_ip: string,
    device_hostname: string,
    metric: string,
    current_value: real,
    threshold: real,
    timestamp: Option<string>)

  /**
   * A JSON value as it may sit in an open-ended history row. A number is
   * carried together with the text JavaScript's `String(x)` gives for it.
   */
  datatype JsValue = JsString(s: string) | JsNumber(text: string) | JsBool(b: bool) | JsNull

  /** One property of a history row. */
  datatype Field = Field(key: string, value: JsValue)

  /**
   * A history row: `timestamp`, the optional utilisations and any further
   * properties, listed in the order `Object.keys` returns them.
   */
  type HistoryRecord = seq<Field>

  /** The property names of a row, in `Object.keys` order. */
  function Keys(rec: HistoryRecord): (ks: seq<string>)
    ensures |ks| == |rec|
    ensures forall i :: 0 <= i < |rec| ==> ks[i] == rec[i].key
  {
    if rec == [] then [] else [rec[0].key] + Keys(rec[1..])
  }

  /** `record[key]`: the first property of that name, or `undefined`. */
  function Lookup(rec: HistoryRecord, key: string): (r: Option<JsValue>)
    ensures r.None? <==> key !in Keys(rec)
    ensures r.Some? ==> Field(key, r.value) in rec
  {
    if rec == [] then None
    else if rec[0].key == key then Some(rec[0].value)
    else Lookup(rec[1..], key)
  }
}
