/** The crash cache as the script initialises it. Without a saved cache file
    the cache starts as the empty string rather than an empty hash, and the
    first hash operation on it, the key test of the resolution check, raises.
    The rest of the model starts from an empty cache instead. */
module AsWritten {
  import opened Wrappers
  import opened Hockey
  import opened Classifier
  import Goalie

  /** The value held by the cache global: a string or a hash. */
  datatype CacheValue = Str(s: string) | Hash(entries: Cache)

  /** The exception a hash method raises on a string. */
  datatype RubyError = NoMethodError

  /** The cache as loaded: the empty string when there is no file. */
  function LoadCacheAsWritten(file: Option<Cache>): CacheValue {
    match file
    case None => Str("")
    case Some(saved) => Hash(saved)
  }

  /** The resolution check on that value: `has_key?` exists on a hash only. */
  function CheckResolvedAsWritten(v: CacheValue, crash: CrashRecord): Result<CacheValue, RubyError> {
    match v
    case Str(_) => Failure(NoMethodError)
    case Hash(m) =>
      if crash.id in m && crash.status != 0 then Success(Hash(m - {crash.id}))
      else Success(v)
  }

  /** Without a cache file, the first crash group of the looked-up version
      makes the run raise. */
  lemma AbsentCacheFileRaises(crash: CrashRecord)
    ensures CheckResolvedAsWritten(LoadCacheAsWritten(None), crash) == Failure(NoMethodError)
  {
  }

  /** With a cache file, the check as written agrees with the model's
      resolution step. */
  lemma SavedCacheFileAgrees(saved: Cache, crash: CrashRecord, log: seq<Notifications.Event>)
    ensures CheckResolvedAsWritten(LoadCacheAsWritten(Some(saved)), crash)
         == Success(Hash(ResolvedStep(State(Goalie.LoadCache(Some(saved)), log), crash).cache))
  {
  }

  /** The intended start: no cache file means an empty cache, on which the
      resolution check changes nothing and sends nothing. */
  lemma AbsentCacheFileStartsEmpty(crash: CrashRecord)
    ensures Goalie.LoadCache(None) == map[]
    ensures ResolvedStep(State(Goalie.LoadCache(None), []), crash) == State(map[], [])
  {
  }
}
