/** The few Python values the pipeline passes around, and how Python prints them. */
module Python {

  datatype Option<+T> = None | Some(value: T)

  /** A metadata value as the pipeline stores it: a string or Python's `None`. */
  datatype PyValue = PyStr(str: string) | PyNone

  /** What an f-string prints for a value: the string itself, or `None`. */
  function Show(v: PyValue): string {
    match v
    case PyStr(s) => s
    case PyNone => "None"
  }

  /** Python truthiness of an optional string: present and non-empty. */
  predicate Truthy(v: Option<string>) {
    v.Some? && |v.value| > 0
  }

  /** `m.get(key, default)` on a dictionary. */
  function Get(m: map<string, PyValue>, key: string, default: PyValue): PyValue {
    if key in m then m[key] else default
  }
}
