/** The keyword arguments a session or adapter passes on to its base class
    (`_get_valid_kwargs` in requests_ratelimiter.py). The base constructor's
    parameter names, which the source reads with `inspect.signature`, are
    given explicitly. */
module ValidKwargs {
  import opened Values

  /** `requests.Session.__init__` takes no parameters besides `self`. */
  const SessionParams: seq<string> := []

  /** The parameters of `requests.adapters.HTTPAdapter.__init__`. */
  const AdapterParams: seq<string> := ["pool_connections", "pool_maxsize", "max_retries", "pool_block"]

  /** `_get_valid_kwargs(func, kwargs)`: the arguments named by one of the
      base constructor's parameters whose value is not `None`, with their
      values. */
  function ValidKwargs(params: seq<string>, kwargs: map<string, Value>): (r: map<string, Value>)
    ensures r.Keys <= kwargs.Keys
    ensures forall k :: k in r ==> k in params && r[k] == kwargs[k] && r[k] != PyNone
    ensures forall k :: k in kwargs && k in params && kwargs[k] != PyNone ==> k in r
  {
    map k | k in kwargs && k in params && kwargs[k] != PyNone :: kwargs[k]
  }

  /** Filtering already valid arguments keeps all of them. */
  lemma ValidKwargsIdempotent(params: seq<string>, kwargs: map<string, Value>)
    ensures ValidKwargs(params, ValidKwargs(params, kwargs)) == ValidKwargs(params, kwargs)
  {
    var once := ValidKwargs(params, kwargs);
    assert ValidKwargs(params, once).Keys == once.Keys;
  }

  /** A plain session passes nothing on to `requests.Session`, whatever
      extra arguments it was given. */
  lemma SessionGetsNoKwargs(kwargs: map<string, Value>)
    ensures ValidKwargs(SessionParams, kwargs) == map[]
  {
    assert ValidKwargs(SessionParams, kwargs).Keys == {};
  }

  /** An adapter passes on a non-`None` `max_retries` and drops arguments its
      base does not accept. */
  lemma AdapterKeepsItsParams(kwargs: map<string, Value>)
    ensures "max_retries" in kwargs && kwargs["max_retries"] != PyNone ==>
              "max_retries" in ValidKwargs(AdapterParams, kwargs)
    ensures "per_second" !in ValidKwargs(AdapterParams, kwargs)
  {
    assert AdapterParams[2] == "max_retries";
  }
}
