/** The shape of the `num_bikes_available_types` cell of a row of the
    Velib `station_status.json` feed: normally a JSON list of objects such as
    `[{"mechanical": 3}, {"ebike": 1}]`, but the pages guard against any
    other JSON value. */
module Gbfs {
  import opened Results

  /** One list element: a JSON object (only its integer members matter), or
      any other JSON value. */
  datatype Element = Object(fields: map<string, int>) | NonObject

  /** The whole cell: a JSON list, or anything else (null, a number, ...). */
  datatype BikeTypes = List(elements: seq<Element>) | NotList

  /** `d.get(key, default)` */
  function GetOr(fields: map<string, int>, key: string, default: int): int {
    if key in fields then fields[key] else default
  }

  /** `d.get(key, None)` */
  function GetOpt(fields: map<string, int>, key: string): Option<int> {
    if key in fields then Some(fields[key]) else None
  }
}
