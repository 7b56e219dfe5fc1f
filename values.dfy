/** The few Python values the wrapper passes around as keyword arguments, and
    `Optional` arguments. */
module Values {

  datatype Option<+T> = None | Some(value: T)

  /** A keyword-argument value: a string, a filesystem path, a boolean,
      Python's `None`, or any other object (known by its `str()`). */
  datatype Value = Text(s: string) | PathValue(p: string) | Flag(b: bool) | PyNone | Other(repr: string)

  /** Python's `str(v)`: a string is itself and a path its path string. */
  function Str(v: Value): (s: string)
    ensures v.Text? ==> s == v.s
    ensures v.PathValue? ==> s == v.p
    ensures v.PyNone? ==> s == "None"
  {
    match v
    case Text(s) => s
    case PathValue(p) => p
    case Flag(b) => if b then "True" else "False"
    case PyNone => "None"
    case Other(r) => r
  }

  /** Python truthiness of an optional string (`if bucket_name:`): present and
      non-empty. */
  predicate Truthy(name: Option<string>): (t: bool)
    ensures t <==> name != None && name != Some("")
  {
    name.Some? && name.value != ""
  }
}
