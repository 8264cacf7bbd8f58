/** Optional values, standing for Python's `None`-or-value, and Python truthiness of an optional string. */
module Options {

  datatype Option<+T> = None | Some(value: T)

  /** Python truthiness of a value that is `None` or a string: `None` and `''` are false. */
  predicate Truthy(v: Option<string>) {
    v.Some? && v.value != ""
  }

  /** `m.get(key)` on a dictionary of strings. */
  function Get(m: map<string, string>, key: string): Option<string> {
    if key in m then Some(m[key]) else None
  }

  /** `v or ''`: the string, with `None` replaced by the empty string. */
  function OrEmpty(v: Option<string>): string {
    if v.Some? then v.value else ""
  }
}
