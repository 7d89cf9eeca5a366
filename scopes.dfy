/**
 * The read/write flag pair of a cache switch and what nested `with`
 * blocks do to it. Entering a block saves the current pair and installs a
 * new one; leaving it puts the saved pair back, in `finally`, so also when
 * the body raises. Two entry rules occur: the controllers install the
 * requested pair as given, the cacheable functions keep the most
 * restrictive of the requested and the current setting.
 */
module Scopes {
  import opened Wrappers

  /** `None` is an unset flag, which an outer level may still decide. */
  datatype Flags = Flags(read: Option<bool>, write: Option<bool>)

  datatype Rule = Override | MostRestrictive

  /** The new value of one flag under the most-restrictive rule. */
  function Restrict(previous: Option<bool>, requested: bool): (r: bool)
    ensures r <==> requested && previous != Some(false)
  {
    if previous.Some? then requested && previous.value else requested
  }

  /** The pair installed when a block requesting (`read`, `write`) is entered. */
  function Entered(rule: Rule, current: Flags, read: bool, write: bool): (f: Flags)
    ensures f.read.Some? && f.write.Some?
    ensures rule.Override? ==> f == Flags(Some(read), Some(write))
    ensures rule.MostRestrictive? ==> (f.read == Some(true) <==> read && current.read != Some(false))
    ensures rule.MostRestrictive? ==> (f.write == Some(true) <==> write && current.write != Some(false))
  {
    match rule
    case Override => Flags(Some(read), Some(write))
    case MostRestrictive => Flags(Some(Restrict(current.read, read)), Some(Restrict(current.write, write)))
  }

  /** Entering a block with the requested pair, or leaving the innermost open block. */
  datatype Op = Enter(read: bool, write: bool) | Exit

  /** The current pair and the pairs saved by the open blocks, innermost last. */
  datatype Scope = Scope(flags: Flags, saved: seq<Flags>)

  function Apply(rule: Rule, s: Scope, op: Op): Scope {
    match op
    case Enter(read, write) => Scope(Entered(rule, s.flags, read, write), s.saved + [s.flags])
    case Exit => if s.saved == [] then s else Scope(s.saved[|s.saved| - 1], s.saved[..|s.saved| - 1])
  }

  function Run(rule: Rule, s: Scope, ops: seq<Op>): Scope
    decreases |ops|
  {
    if ops == [] then s else Apply(rule, Run(rule, s, ops[..|ops| - 1]), ops[|ops| - 1])
  }

  /** Blocks entered minus blocks left. */
  function Depth(ops: seq<Op>): int
    decreases |ops|
  {
    if ops == [] then 0
    else Depth(ops[..|ops| - 1]) + (if ops[|ops| - 1].Enter? then 1 else -1)
  }

  /** Never leaves a block that `ops` did not enter, as `with` statements guarantee. */
  predicate Nested(ops: seq<Op>) {
    forall i :: 0 <= i <= |ops| ==> Depth(ops[..i]) >= 0
  }

  lemma NestedPrefix(ops: seq<Op>)
    requires Nested(ops) && ops != []
    ensures Nested(ops[..|ops| - 1])
  {
    var init := ops[..|ops| - 1];
    forall i | 0 <= i <= |init|
      ensures Depth(init[..i]) >= 0
    {
      assert init[..i] == ops[..i];
    }
  }

  /**
   * Running well-nested blocks never disturbs the pairs saved before them;
   * while some of them are open the outermost one holds the pair they
   * started from, and once all are closed that pair is current again.
   */
  lemma {:induction false} RunKeepsBase(rule: Rule, s: Scope, ops: seq<Op>)
    requires Nested(ops)
    ensures Depth(ops) >= 0
    ensures |Run(rule, s, ops).saved| == |s.saved| + Depth(ops)
    ensures Run(rule, s, ops).saved[..|s.saved|] == s.saved
    ensures Depth(ops) == 0 ==> Run(rule, s, ops).flags == s.flags
    ensures Depth(ops) > 0 ==> Run(rule, s, ops).saved[|s.saved|] == s.flags
    decreases |ops|
  {
    assert ops[..|ops|] == ops;
    if ops != [] {
      var init := ops[..|ops| - 1];
      NestedPrefix(ops);
      RunKeepsBase(rule, s, init);
      var mid := Run(rule, s, init);
      if ops[|ops| - 1].Exit? {
        assert mid.saved != [];
        assert mid.saved[..|mid.saved| - 1][..|s.saved|] == mid.saved[..|s.saved|];
      } else {
        assert (mid.saved + [mid.flags])[..|s.saved|] == mid.saved[..|s.saved|];
      }
    }
  }

  /** Blocks entered and left in LIFO order restore the pair they started from. */
  lemma BalancedRestores(rule: Rule, s: Scope, ops: seq<Op>)
    requires Nested(ops) && Depth(ops) == 0
    ensures Run(rule, s, ops) == s
  {
    RunKeepsBase(rule, s, ops);
    var r := Run(rule, s, ops);
    assert r.saved == r.saved[..|s.saved|];
  }

  /**
   * Under the most-restrictive rule a flag that is off stays off in every
   * block nested inside, whatever those blocks request.
   */
  lemma {:induction false} OffStaysOff(s: Scope, ops: seq<Op>)
    requires Nested(ops)
    ensures s.flags.read == Some(false) ==> Run(MostRestrictive, s, ops).flags.read == Some(false)
    ensures s.flags.write == Some(false) ==> Run(MostRestrictive, s, ops).flags.write == Some(false)
    ensures s.flags.read == Some(false) ==>
      forall i :: |s.saved| <= i < |Run(MostRestrictive, s, ops).saved| ==> Run(MostRestrictive, s, ops).saved[i].read == Some(false)
    ensures s.flags.write == Some(false) ==>
      forall i :: |s.saved| <= i < |Run(MostRestrictive, s, ops).saved| ==> Run(MostRestrictive, s, ops).saved[i].write == Some(false)
    decreases |ops|
  {
    RunKeepsBase(MostRestrictive, s, ops);
    if ops != [] {
      var init := ops[..|ops| - 1];
      NestedPrefix(ops);
      OffStaysOff(s, init);
      RunKeepsBase(MostRestrictive, s, init);
    }
  }
}
