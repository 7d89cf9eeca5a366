/**
 * The switches that decide whether a cached function reads and writes its
 * cache. Each decision has three levels (the function's own controller,
 * one process-wide global controller, and two environment variables), and
 * each level says yes, no, or nothing. A "no" anywhere wins, then a "yes"
 * anywhere, otherwise the answer stays unset.
 */
module Controllers {
  import opened Wrappers
  import opened Scopes

  /** The answer of one level given the answer of the levels outside it. */
  function Combine(local: Option<bool>, outer: Option<bool>): Option<bool> {
    if local == Some(false) || outer == Some(false) then Some(false)
    else if local == Some(true) || outer == Some(true) then Some(true)
    else None
  }

  /** The reference answer for any number of levels: disable beats enable beats unset. */
  function Resolve(levels: seq<Option<bool>>): (r: Option<bool>)
    ensures r == None <==> forall i :: 0 <= i < |levels| ==> levels[i] == None
  {
    assert forall i :: 0 <= i < |levels| && levels[i].Some? ==>
      levels[i] in levels && (levels[i].value ==> levels[i] == Some(true)) && (!levels[i].value ==> levels[i] == Some(false));
    if Some(false) in levels then Some(false)
    else if Some(true) in levels then Some(true)
    else None
  }

  /** Combining the levels one by one, innermost first. */
  function CombineAll(levels: seq<Option<bool>>): Option<bool> {
    if levels == [] then None else Combine(levels[0], CombineAll(levels[1..]))
  }

  /** Level-by-level combination gives the reference answer, however many levels there are. */
  lemma {:induction false} CombineAllResolves(levels: seq<Option<bool>>)
    ensures CombineAll(levels) == Resolve(levels)
  {
    if levels != [] {
      CombineAllResolves(levels[1..]);
      assert levels == [levels[0]] + levels[1..];
    }
  }

  /** Combination ignores order and grouping, unset is neutral and "no" absorbs. */
  lemma CombineLaws(a: Option<bool>, b: Option<bool>, c: Option<bool>)
    ensures Combine(a, b) == Combine(b, a)
    ensures Combine(a, Combine(b, c)) == Combine(Combine(a, b), c)
    ensures Combine(a, a) == a && Combine(a, None) == a
    ensures Combine(a, Some(false)) == Some(false)
  {
    if a.Some? {
      assert a == Some(a.value);
      if a.value { assert a == Some(true); } else { assert a == Some(false); }
    }
  }

  // ---------------------------------------------------------------------
  // The environment level

  type Environment = map<string, string>

  function Get(env: Environment, name: string): string {
    if name in env then env[name] else ""
  }

  function LowerChar(c: char): char {
    if 'A' <= c <= 'Z' then (c as int + 32) as char else c
  }

  /** `str.lower` on the letters A to Z; other characters are kept. */
  function Lower(s: string): (r: string)
    ensures |r| == |s| && forall i :: 0 <= i < |s| ==> r[i] == LowerChar(s[i])
  {
    seq(|s|, i requires 0 <= i < |s| => LowerChar(s[i]))
  }

  /** The value reads "true" ignoring case. */
  predicate SaysTrue(value: string) {
    Lower(value) == "true"
  }

  lemma LowerLetter(c: char, lower: char)
    requires 'a' <= lower <= 'z'
    ensures LowerChar(c) == lower <==> c == lower || c as int == lower as int - 32
  {
  }

  /** Exactly the sixteen spellings of "true" in upper and lower case letters pass. */
  lemma SaysTrueSpellings(value: string)
    ensures SaysTrue(value) <==>
      |value| == 4 && value[0] in "tT" && value[1] in "rR" && value[2] in "uU" && value[3] in "eE"
  {
    if |value| == 4 {
      LowerLetter(value[0], 't');
      LowerLetter(value[1], 'r');
      LowerLetter(value[2], 'u');
      LowerLetter(value[3], 'e');
      if SaysTrue(value) {
        var low := Lower(value);
        assert low[0] == 't' && low[1] == 'r' && low[2] == 'u' && low[3] == 'e';
      }
      if value[0] in "tT" && value[1] in "rR" && value[2] in "uU" && value[3] in "eE" {
        assert Lower(value) == "true";
      }
    }
  }

  /** The environment's say: CACHEABLES_DISABLED wins over CACHEABLES_ENABLED. */
  function EnvVarEnabled(env: Environment): (r: Option<bool>)
    ensures r == Some(false) <==> SaysTrue(Get(env, "CACHEABLES_DISABLED"))
    ensures r == Some(true) <==> SaysTrue(Get(env, "CACHEABLES_ENABLED")) && !SaysTrue(Get(env, "CACHEABLES_DISABLED"))
    ensures r == None <==> !SaysTrue(Get(env, "CACHEABLES_ENABLED")) && !SaysTrue(Get(env, "CACHEABLES_DISABLED"))
  {
    var enabled := SaysTrue(Get(env, "CACHEABLES_ENABLED"));
    var disabled := SaysTrue(Get(env, "CACHEABLES_DISABLED"));
    if enabled && disabled then Some(false)
    else if disabled then Some(false)
    else if enabled then Some(true)
    else None
  }

  // ---------------------------------------------------------------------
  // The controllers

  /** The one process-wide controller. */
  class GlobalCacheController {
    var read: Option<bool>
    var write: Option<bool>

    constructor ()
      ensures read == None && write == None
    {
      read := None;
      write := None;
    }

    function Current(): Flags
      reads this
    {
      Flags(read, write)
    }

    /** Entering `enable(read, write)`: installs the pair and returns the one to restore on exit. */
    method Enable(r: bool, w: bool) returns (saved: Flags)
      modifies this
      ensures Current() == Entered(Override, old(Current()), r, w)
      ensures saved == old(Current())
    {
      saved := Current();
      read, write := Some(r), Some(w);
    }

    /** `disable()` is `enable(read=False, write=False)`. */
    method Disable() returns (saved: Flags)
      modifies this
      ensures Current() == Entered(Override, old(Current()), false, false)
      ensures saved == old(Current())
    {
      saved := Enable(false, false);
    }

    /** Leaving the block, normally or by an exception. */
    method Restore(saved: Flags)
      modifies this
      ensures Current() == saved
    {
      read, write := saved.read, saved.write;
    }

    function IsReadEnabled(env: Environment): (r: Option<bool>)
      reads this
      ensures r == Resolve([read, EnvVarEnabled(env)])
    {
      Combine(read, EnvVarEnabled(env))
    }

    function IsWriteEnabled(env: Environment): (r: Option<bool>)
      reads this
      ensures r == Resolve([write, EnvVarEnabled(env)])
    {
      Combine(write, EnvVarEnabled(env))
    }
  }

  /** The class attribute holding the single global controller once it exists. */
  class GlobalSlot {
    var instance: GlobalCacheController?

    constructor ()
      ensures instance == null
    {
      instance := null;
    }

    /** `GlobalCacheController()`: creates the controller on first use, then always returns it. */
    method Get() returns (g: GlobalCacheController)
      modifies this
      ensures instance == g
      ensures old(instance) != null ==> g == old(instance)
      ensures old(instance) == null ==> fresh(g) && g.read == None && g.write == None
    {
      if instance == null {
        instance := new GlobalCacheController();
      }
      g := instance;
    }
  }

  /** `enable_all_caches`: the global controller's `enable`. */
  method EnableAllCaches(slot: GlobalSlot, r: bool, w: bool) returns (g: GlobalCacheController, saved: Flags)
    modifies slot, slot.instance
    ensures g == slot.instance
    ensures old(slot.instance) != null ==> g == old(slot.instance) && saved == old(slot.instance.Current())
    ensures old(slot.instance) == null ==> saved == Flags(None, None)
    ensures g.Current() == Flags(Some(r), Some(w))
  {
    g := slot.Get();
    saved := g.Enable(r, w);
  }

  /** `disable_all_caches`: the global controller's `disable`. */
  method DisableAllCaches(slot: GlobalSlot) returns (g: GlobalCacheController, saved: Flags)
    modifies slot, slot.instance
    ensures g == slot.instance
    ensures old(slot.instance) != null ==> g == old(slot.instance) && saved == old(slot.instance.Current())
    ensures old(slot.instance) == null ==> saved == Flags(None, None)
    ensures g.Current() == Flags(Some(false), Some(false))
  {
    g, saved := EnableAllCaches(slot, false, false);
  }

  /** The controller of one cached function, backed by the shared global one. */
  class CacheController {
    var read: Option<bool>
    var write: Option<bool>
    const global: GlobalCacheController

    constructor (slot: GlobalSlot)
      modifies slot
      ensures read == None && write == None
      ensures global == slot.instance
      ensures old(slot.instance) != null ==> global == old(slot.instance)
    {
      read := None;
      write := None;
      var g := slot.Get();
      global := g;
    }

    function Current(): Flags
      reads this
    {
      Flags(read, write)
    }

    method Enable(r: bool, w: bool) returns (saved: Flags)
      modifies this
      ensures Current() == Entered(Override, old(Current()), r, w)
      ensures saved == old(Current())
    {
      saved := Current();
      read, write := Some(r), Some(w);
    }

    method Disable() returns (saved: Flags)
      modifies this
      ensures Current() == Entered(Override, old(Current()), false, false)
      ensures saved == old(Current())
    {
      saved := Enable(false, false);
    }

    method Restore(saved: Flags)
      modifies this
      ensures Current() == saved
    {
      read, write := saved.read, saved.write;
    }

    /** No at any level wins, then yes at any level, else unset. */
    function IsReadEnabled(env: Environment): (r: Option<bool>)
      reads this, global
      ensures r == Resolve([read, global.read, EnvVarEnabled(env)])
    {
      Combine(read, global.IsReadEnabled(env))
    }

    function IsWriteEnabled(env: Environment): (r: Option<bool>)
      reads this, global
      ensures r == Resolve([write, global.write, EnvVarEnabled(env)])
    {
      Combine(write, global.IsWriteEnabled(env))
    }
  }

  /** Two controllers made one after the other share one global controller. */
  method SharedGlobal(slot: GlobalSlot) returns (a: CacheController, b: CacheController)
    modifies slot
    ensures a.global == b.global == slot.instance
  {
    a := new CacheController(slot);
    b := new CacheController(slot);
  }
}
