/** include/cqasm-overload.hpp: overload resolution, where the last applicable overload wins. */
module Overloads {
  import opened Wrappers
  import opened Promotion

  datatype Overload<T> = Overload(tag: T, params: seq<Type>)

  /** All the arguments can be promoted to the parameters. */
  predicate Applicable(params: seq<Type>, args: seq<Value>, round: Rounding) {
    |params| == |args| && forall i :: 0 <= i < |args| ==> Promote(args[i], params[i], round).Some?
  }

  function Promoted(params: seq<Type>, args: seq<Value>, round: Rounding): seq<Value>
    requires Applicable(params, args, round)
  {
    seq(|args|, i requires 0 <= i < |args| => Promote(args[i], params[i], round).value)
  }

  /** k is the last overload for which the arguments will do. */
  predicate LastApplicable<T>(overloads: seq<Overload<T>>, args: seq<Value>, round: Rounding, k: nat) {
    && k < |overloads| && Applicable(overloads[k].params, args, round)
    && forall j :: k < j < |overloads| ==> !Applicable(overloads[j].params, args, round)
  }

  predicate NoneApplicable<T>(overloads: seq<Overload<T>>, args: seq<Value>, round: Rounding) {
    forall j :: 0 <= j < |overloads| ==> !Applicable(overloads[j].params, args, round)
  }

  /** The arguments promoted to the parameters, if possible. */
  method PromoteArgs(params: seq<Type>, args: seq<Value>, round: Rounding) returns (promoted: Option<seq<Value>>)
    requires |params| == |args|
    ensures promoted == if Applicable(params, args, round) then Some(Promoted(params, args, round)) else None
  {
    var acc := [];
    var i := 0;
    while i < |args|
      invariant i <= |args| && |acc| == i
      invariant forall k :: 0 <= k < i ==> Promote(args[k], params[k], round) == Some(acc[k])
    {
      var p := Promote(args[i], params[i], round);
      if p.None? {
        return None;
      }
      acc := acc + [p.value];
      i := i + 1;
    }
    assert Applicable(params, args, round) && acc == Promoted(params, args, round);
    return Some(acc);
  }

  /** OverloadResolver::resolve.  None stands for an OverloadResolutionFailure. */
  method ResolveOverload<T>(overloads: seq<Overload<T>>, args: seq<Value>, round: Rounding)
    returns (r: Option<(T, seq<Value>)>, ghost k: nat)
    ensures r.None? <==> NoneApplicable(overloads, args, round)
    ensures r.Some? ==> LastApplicable(overloads, args, round, k)
    ensures r.Some? ==> r.value == (overloads[k].tag, Promoted(overloads[k].params, args, round))
  {
    k := 0;
    var j: nat := |overloads|;
    while j > 0
      invariant j <= |overloads| && forall i :: j <= i < |overloads| ==> !Applicable(overloads[i].params, args, round)
    {
      j := j - 1;
      if |overloads[j].params| == |args| {
        var promoted := PromoteArgs(overloads[j].params, args, round);
        if promoted.Some? {
          k := j;
          return Some((overloads[j].tag, promoted.value)), k;
        }
      }
    }
    return None, k;
  }

  function OverloadsOf<N, T>(table: map<N, seq<Overload<T>>>, name: N): seq<Overload<T>> {
    if name in table then table[name] else []
  }

  /** The overloads of each name, in the order in which they were added. */
  class OverloadedNameResolver<N(==), T> {
    var table: map<N, seq<Overload<T>>>

    constructor ()
      ensures table == map[]
    {
      table := map[];
    }

    method AddOverload(name: N, tag: T, params: seq<Type>)
      modifies this
      ensures table == old(table)[name := OverloadsOf(old(table), name) + [Overload(tag, params)]]
    {
      if name !in table {
        table := table[name := [Overload(tag, params)]];
        assert [] + [Overload(tag, params)] == [Overload(tag, params)];
      } else {
        table := table[name := table[name] + [Overload(tag, params)]];
      }
    }

    /** None stands for a NameResolutionFailure or an OverloadResolutionFailure. */
    method Resolve(name: N, args: seq<Value>, round: Rounding) returns (r: Option<(T, seq<Value>)>, ghost k: nat)
      ensures r.None? <==> name !in table || NoneApplicable(table[name], args, round)
      ensures r.Some? ==> LastApplicable(table[name], args, round, k)
      ensures r.Some? ==> r.value == (table[name][k].tag, Promoted(table[name][k].params, args, round))
    {
      k := 0;
      if name in table {
        r, k := ResolveOverload(table[name], args, round);
      } else {
        r := None;
      }
    }
  }

  // ----- resolution on types alone -----

  /** Parameters that a scalar type checker can judge. */
  predicate ScalarParams(params: seq<Type>) {
    forall i :: 0 <= i < |params| ==> params[i] in {Bool, Int, Float}
  }

  predicate Fits(types: seq<Type>, params: seq<Type>) {
    |types| == |params| && forall i :: 0 <= i < |types| ==> CheckPromote(types[i], params[i])
  }

  function TypesOf(vs: seq<Value>): seq<Type> {
    seq(|vs|, i requires 0 <= i < |vs| => TypeOf(vs[i]))
  }

  /** Applicability does not depend on the values. */
  lemma FitsApplicable(params: seq<Type>, args: seq<Value>, round: Rounding)
    requires ScalarParams(params)
    ensures Applicable(params, args, round) <==> Fits(TypesOf(args), params)
  {
    if |params| == |args| {
      forall i | 0 <= i < |args|
        ensures Promote(args[i], params[i], round).Some? <==> CheckPromote(TypeOf(args[i]), params[i])
      {
        PromoteDecided(args[i], params[i], round);
      }
      assert forall i :: 0 <= i < |args| ==> TypesOf(args)[i] == TypeOf(args[i]);
    }
  }

  /** Later overloads of the same length are at least as specific. */
  predicate SpecificLast<T>(overloads: seq<Overload<T>>) {
    forall i, j :: 0 <= i < j < |overloads| && |overloads[i].params| == |overloads[j].params| ==>
      Fits(overloads[j].params, overloads[i].params)
  }

  predicate AllScalar<T>(overloads: seq<Overload<T>>) {
    forall i :: 0 <= i < |overloads| ==> ScalarParams(overloads[i].params)
  }

  /** The overload chosen depends on the types alone, and is the pointwise least that is applicable. */
  lemma LeastChosen<T>(overloads: seq<Overload<T>>, args: seq<Value>, round: Rounding, k: nat)
    requires AllScalar(overloads) && SpecificLast(overloads) && LastApplicable(overloads, args, round, k)
    ensures Fits(TypesOf(args), overloads[k].params)
    ensures forall j :: 0 <= j < |overloads| && Fits(TypesOf(args), overloads[j].params) ==>
      j <= k && Fits(overloads[k].params, overloads[j].params)
  {
    FitsApplicable(overloads[k].params, args, round);
    forall j | 0 <= j < |overloads| && Fits(TypesOf(args), overloads[j].params)
      ensures j <= k && Fits(overloads[k].params, overloads[j].params)
    {
      FitsApplicable(overloads[j].params, args, round);
    }
  }

  /** Registering in the wrong order gives up the least overload: with the integer version first, the float
      version is chosen for two integers. */
  lemma OrderMatters<T>(ints: T, floats: T, a: int, b: int, round: Rounding)
    ensures var wrong := [Overload(ints, [Int, Int]), Overload(floats, [Float, Float])];
      LastApplicable(wrong, [ConstInt(a), ConstInt(b)], round, 1) && !SpecificLast(wrong)
  {
    var wrong := [Overload(ints, [Int, Int]), Overload(floats, [Float, Float])];
    assert !Fits(wrong[1].params, wrong[0].params) by { assert !CheckPromote(wrong[1].params[0], wrong[0].params[0]); }
  }
}
