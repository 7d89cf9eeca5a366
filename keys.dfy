/**
 * The identifiers of the cache: a function, one version of a function, and
 * one input of a version. Keys are plain records; equality is structural.
 */
module Keys {

  datatype FunctionKey = FunctionKey(functionId: string)

  datatype VersionKey = VersionKey(functionId: string, versionId: string)
  {
    /** The function this version belongs to. */
    function ToFunctionKey(): (f: FunctionKey)
      ensures f.functionId == functionId
    {
      FunctionKey(functionId)
    }
  }

  datatype InputKey = InputKey(functionId: string, versionId: string, inputId: string)
  {
    /** The function this input belongs to. */
    function ToFunctionKey(): (f: FunctionKey)
      ensures f.functionId == functionId
    {
      FunctionKey(functionId)
    }

    /** The version this input belongs to. */
    function ToVersionKey(): (v: VersionKey)
      ensures v.functionId == functionId && v.versionId == versionId
    {
      VersionKey(functionId, versionId)
    }
  }

  /**
   * The key of one stored call in the unversioned disk cache, which names
   * a function and an input only.
   */
  datatype CacheKey = CacheKey(functionId: string, inputId: string)
  {
    function ToFunctionKey(): (f: FunctionKey)
      ensures f.functionId == functionId
    {
      FunctionKey(functionId)
    }
  }

  /** Going through the version reaches the same function as going directly. */
  lemma ProjectionsCommute(k: InputKey)
    ensures k.ToVersionKey().ToFunctionKey() == k.ToFunctionKey()
  {
  }

  /** An input key is determined by its version key and its input id. */
  lemma InputKeyDetermined(a: InputKey, b: InputKey)
    ensures a == b <==> a.ToVersionKey() == b.ToVersionKey() && a.inputId == b.inputId
  {
  }
}
