/** A queued download: the URL and the optional per-video password
    (the `(url, password)` tuples of vidar.py). */
module Jobs {
  import opened Wrappers

  datatype Job = Job(url: string, password: Option<string>)

  /** Python truthiness of an optional string: `None` and `""` are both false. */
  predicate Present(v: Option<string>)
  {
    v.Some? && v.value != ""
  }
}
