/** JavaScript values as they appear in the records and attachment objects the exporter handles. */
module Values {

  datatype Option<+T> = None | Some(value: T)

  /** A scalar JSON value. Numbers are modelled as integers. */
  datatype Value = Null | Bool(b: bool) | Num(n: int) | Str(s: string)

  /** A plain JavaScript object: its own keys and their values. */
  type Object = map<string, Value>

  /** JavaScript truthiness of a value that is a string, null or undefined: only a non-empty string is truthy. */
  predicate Truthy(s: Option<string>) {
    s.Some? && s.value != ""
  }

  /** Concatenation is associative; stated once so that proofs about strings and record lists need not rediscover it. */
  lemma Assoc<T>(x: seq<T>, y: seq<T>, z: seq<T>)
    ensures x + y + z == x + (y + z)
  {
  }
}
