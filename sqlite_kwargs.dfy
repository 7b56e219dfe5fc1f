/** Normalisation of the keyword arguments for an SQLite-backed bucket
    (`prepare_sqlite_kwargs` in buckets.py; the same code is
    `_prepare_sqlite_kwargs` in requests_ratelimiter.py). */
module SqliteArgs {
  import opened Values

  type Kwargs = map<string, Value>

  /** The parameters `SQLiteBucket.init_from_file` accepts. */
  const SupportedParams: set<string> := {"table", "db_path", "create_new_table", "use_file_lock"}

  /** The table a named bucket gets: `bucket_<name>`. */
  function TableName(name: string): string { "bucket_" + name }

  /** Whether the prepared arguments hold key `k`, stated key by key:
      `db_path` comes from `path` or `db_path`, `table` from `table` or a
      non-empty bucket name, the two flags only from themselves. */
  predicate SpecHas(kwargs: Kwargs, name: Option<string>, k: string)
  {
    match k
    case "db_path" => "path" in kwargs || "db_path" in kwargs
    case "table" => "table" in kwargs || Truthy(name)
    case _ => k in SupportedParams && k in kwargs
  }

  /** The value of key `k` in the prepared arguments: a given `path` wins over
      a given `db_path` and is turned into its string; a given `table` wins
      over the derived one. */
  function SpecValue(kwargs: Kwargs, name: Option<string>, k: string): Value
    requires SpecHas(kwargs, name, k)
  {
    match k
    case "db_path" => if "path" in kwargs then Text(Str(kwargs["path"])) else kwargs["db_path"]
    case "table" => if "table" in kwargs then kwargs["table"] else Text(TableName(name.value))
    case _ => kwargs[k]
  }

  /** The prepared arguments, defined key by key. */
  function SqliteKwargs(kwargs: Kwargs, name: Option<string>): (r: Kwargs)
    ensures r.Keys <= SupportedParams
    ensures forall k :: k in r <==> k in SupportedParams && SpecHas(kwargs, name, k)
  {
    map k | k in SupportedParams && SpecHas(kwargs, name, k) :: SpecValue(kwargs, name, k)
  }

  /** `prepare_sqlite_kwargs(bucket_kwargs, bucket_name)`: copy, move `path`
      to `db_path`, derive `table` from a non-empty name, keep only the
      supported keys. The caller's map is a value and cannot change. */
  method PrepareSqliteKwargs(bucketKwargs: Kwargs, bucketName: Option<string>) returns (r: Kwargs)
    ensures r == SqliteKwargs(bucketKwargs, bucketName)
  {
    var kwargs := bucketKwargs;
    if "path" in kwargs {
      var path := kwargs["path"];
      kwargs := kwargs - {"path"};
      kwargs := kwargs["db_path" := Text(Str(path))];
    }
    if Truthy(bucketName) && "table" !in kwargs {
      kwargs := kwargs["table" := Text(TableName(bucketName.value))];
    }
    r := map k | k in kwargs && k in SupportedParams :: kwargs[k];
    assert forall k :: k in r <==> k in SqliteKwargs(bucketKwargs, bucketName);
  }

  /** A given `path` always ends up as `db_path`, overriding a given
      `db_path`, and no `path` key survives. */
  lemma PathBecomesDbPath(kwargs: Kwargs, name: Option<string>)
    requires "path" in kwargs
    ensures var r := SqliteKwargs(kwargs, name);
            "path" !in r && "db_path" in r && r["db_path"] == Text(Str(kwargs["path"]))
  {
    assert SpecHas(kwargs, name, "db_path");
  }

  /** `table` is derived only when none was given and the name is non-empty;
      a given table is kept. */
  lemma TableRule(kwargs: Kwargs, name: Option<string>)
    ensures var r := SqliteKwargs(kwargs, name);
            && ("table" in kwargs ==> "table" in r && r["table"] == kwargs["table"])
            && ("table" !in kwargs ==>
                  ("table" in r <==> Truthy(name)) &&
                  (Truthy(name) ==> r["table"] == Text(TableName(name.value))))
  {
    assert "table" in SupportedParams;
    if "table" in kwargs || Truthy(name) {
      assert SpecHas(kwargs, name, "table");
    }
  }

  /** Preparing prepared arguments again with the same name changes nothing. */
  lemma SqliteKwargsIdempotent(kwargs: Kwargs, name: Option<string>)
    ensures SqliteKwargs(SqliteKwargs(kwargs, name), name) == SqliteKwargs(kwargs, name)
  {
    var once := SqliteKwargs(kwargs, name);
    var twice := SqliteKwargs(once, name);
    assert "path" !in once;
    forall k | k in SupportedParams
      ensures (k in twice <==> k in once) && (k in once ==> twice[k] == once[k])
    {
      if k == "db_path" {
        assert SpecHas(once, name, k) <==> SpecHas(kwargs, name, k);
      } else if k == "table" {
        assert SpecHas(once, name, k) <==> SpecHas(kwargs, name, k);
      }
    }
    assert twice.Keys == once.Keys;
  }
}
