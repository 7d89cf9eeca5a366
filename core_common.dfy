/**
 * What the two cacheable-function cores share: the exceptions they raise,
 * the check they apply to the ids that user hooks return, and the
 * DISABLE_CACHEABLE switch read at every call.
 */
module CoreCommon {
  import opened Wrappers
  import opened FileSystem
  import opened Documents
  import Controllers

  /** The exceptions a cacheable function raises, besides those of the wrapped function. */
  datatype Error =
    | InputIdException
    | VersionIdException
    | LoadException
    | DumpException
    | MissingResultException
    | OSError
    | JSONDecodeError
    | KeyError
    | TypeError

  /** What a user hook did when called: raised, or returned some value. */
  datatype HookResult = Raised | Returned(value: Value)

  /**
   * The id a hook gave. Any exception of the hook, and any result that is
   * not a non-empty string, becomes the given error.
   */
  function CheckId(h: HookResult, error: Error): (r: Result<string, Error>)
    ensures r.Success? <==> h.Returned? && h.value.Text? && h.value.s != ""
    ensures r.Success? ==> h == Returned(Text(r.value))
    ensures r.Failure? ==> r.error == error
  {
    if h.Returned? && h.value.Text? && h.value.s != "" then Success(h.value.s) else Failure(error)
  }

  const DisableVariable := "DISABLE_CACHEABLE"

  /** `os.getenv("DISABLE_CACHEABLE", "false").lower() == "true"`. */
  predicate CacheDisabled(env: Controllers.Environment) {
    Controllers.SaysTrue(if DisableVariable in env then env[DisableVariable] else "false")
  }

  /** The switch is off unless the variable is set, and then reads "true" in any mix of cases. */
  lemma CacheDisabledExactly(env: Controllers.Environment)
    ensures CacheDisabled(env) <==>
      (DisableVariable in env && |env[DisableVariable]| == 4 &&
       env[DisableVariable][0] in "tT" && env[DisableVariable][1] in "rR" &&
       env[DisableVariable][2] in "uU" && env[DisableVariable][3] in "eE")
  {
    var v := if DisableVariable in env then env[DisableVariable] else "false";
    Controllers.SaysTrueSpellings(v);
  }

  /** What a call of a cacheable function gives: its result, whether it came from the cache, and the filesystem after. */
  datatype Called<R> = Called(result: R, hit: bool, fs: Tree)
}
