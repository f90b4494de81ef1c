/** JSON values as the platform stores them in a record's `data` column. A number keeps its text. */
module Json {
  datatype Json =
    | JNull
    | JBool(b: bool)
    | JNum(text: string)
    | JStr(s: string)
    | JArr(items: seq<Json>)
    | JObj(fields: map<string, Json>)

  type Record = map<string, Json>

  /** The value stored under `key`, with an absent key read as JSON null. */
  function Lookup(data: Record, key: string): Json {
    if key in data then data[key] else JNull
  }
}
