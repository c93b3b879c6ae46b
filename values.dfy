/** The values a Python `Dict[str, Any]` of this system can hold: what the
    language model's JSON reply decodes to, and what the pipeline hands to
    the ticket store. */
module Values {

  /** One JSON value. `Structured` stands for a JSON array or object, whose
      contents no part of the core inspects. */
  datatype Value = Null | Bool(b: bool) | Int(i: int) | Str(s: string) | Structured

  /** A string-keyed dictionary such as an analysis result or `ticket_data`. */
  type Record = map<string, Value>

  /** Python's `d.get(k)`: the value, or `None` when the key is absent. */
  function Get(d: Record, k: string): Value
  {
    if k in d then d[k] else Null
  }
}
