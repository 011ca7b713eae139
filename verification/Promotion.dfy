/** src/v3x/cqasm-values.cpp: types, values and promotion in cQASM 3.

    The conversion of an integer to a double is a parameter: nothing here depends on how it rounds. */
module Promotion {
  import opened Wrappers

  datatype Type =
    | Qubit | Bit | Axis | Bool | Int | Float | Complex
    | QubitArray | BitArray | BoolArray | IntArray | FloatArray

  /** Constants, and what is only known at run time: a variable or the result of a function call, by its type
      and size. */
  datatype Value =
    | ConstAxis(x: real, y: real, z: real)
    | ConstBool(b: bool)
    | ConstInt(n: int)
    | ConstFloat(f: real)
    | ConstComplex(re: real, im: real)
    | ConstBoolArray(bs: seq<bool>)
    | ConstIntArray(ns: seq<int>)
    | ConstFloatArray(fs: seq<real>)
    | Unknown(typ: Type, size: nat)

  type Rounding = int -> real

  predicate IsConst(v: Value) {
    !v.Unknown?
  }

  function TypeOf(v: Value): Type {
    match v
    case ConstAxis(_, _, _) => Axis
    case ConstBool(_) => Bool
    case ConstInt(_) => Int
    case ConstFloat(_) => Float
    case ConstComplex(_, _) => Complex
    case ConstBoolArray(_) => BoolArray
    case ConstIntArray(_) => IntArray
    case ConstFloatArray(_) => FloatArray
    case Unknown(t, _) => t
  }

  function SizeOf(v: Value): nat {
    match v
    case ConstAxis(_, _, _) => 3
    case ConstBoolArray(bs) => |bs|
    case ConstIntArray(ns) => |ns|
    case ConstFloatArray(fs) => |fs|
    case Unknown(_, size) => size
    case _ => 1
  }

  function BoolInt(b: bool): int {
    if b then 1 else 0
  }

  function IntsOf(bs: seq<bool>): seq<int> {
    seq(|bs|, i requires 0 <= i < |bs| => BoolInt(bs[i]))
  }

  function FloatsOf(ns: seq<int>, round: Rounding): seq<real> {
    seq(|ns|, i requires 0 <= i < |ns| => round(ns[i]))
  }

  /** promote: the value as a value of type t, if it can be one.  A variable is only checked. */
  function Promote(v: Value, t: Type, round: Rounding): Option<Value> {
    if TypeOf(v) == t then Some(v)
    else
      match t
      case Int =>
        if v.ConstBool? then Some(ConstInt(BoolInt(v.b)))
        else if v.Unknown? && v.typ == Bool then Some(v)
        else None
      case IntArray =>
        if v.ConstBoolArray? then Some(ConstIntArray(IntsOf(v.bs)))
        else if v.Unknown? && v.typ == BoolArray then Some(v)
        else None
      case Float =>
        if v.ConstBool? then Some(ConstFloat(round(BoolInt(v.b))))
        else if v.ConstInt? then Some(ConstFloat(round(v.n)))
        else if v.Unknown? && v.typ in {Bool, Int} then Some(v)
        else None
      case FloatArray =>
        if v.ConstBoolArray? then Some(ConstFloatArray(FloatsOf(IntsOf(v.bs), round)))
        else if v.ConstIntArray? then Some(ConstFloatArray(FloatsOf(v.ns, round)))
        else if v.Unknown? && v.typ in {BoolArray, IntArray} then Some(v)
        else None
      case Complex =>
        if v.ConstBool? then Some(ConstComplex(round(BoolInt(v.b)), 0.0))
        else if v.ConstInt? then Some(ConstComplex(round(v.n), 0.0))
        else if v.ConstFloat? then Some(ConstComplex(v.f, 0.0))
        else if v.Unknown? && v.typ in {Bool, Int, Float} then Some(v)
        else None
      case Axis =>
        if v.ConstBoolArray? && |v.bs| == 3 then Some(ConstFloatArray(FloatsOf(IntsOf(v.bs), round)))
        else if v.ConstIntArray? && |v.ns| == 3 then Some(ConstFloatArray(FloatsOf(v.ns, round)))
        else if v.ConstFloatArray? && |v.fs| == 3 then Some(v)
        else if v.Unknown? && v.typ in {BoolArray, IntArray, FloatArray} && v.size == 3 then Some(v)
        else None
      case _ => None
  }

  /** check_promote, which only knows the scalar promotions. */
  predicate CheckPromote(from: Type, to: Type) {
    || from == to || (from == Bool && to in {Int, Float, Complex})
    || (from == Int && to in {Float, Complex}) || (from == Float && to == Complex)
  }

  /** The promotions of whole arrays. */
  predicate ArrayPromotes(from: Type, size: nat, to: Type) {
    || (from == BoolArray && to in {IntArray, FloatArray}) || (from == IntArray && to == FloatArray)
    || (from in {BoolArray, IntArray, FloatArray} && to == Axis && size == 3)
  }

  /** Whether a value can be promoted depends only on its type and size; check_promote decides it for all but
      the promotions of arrays, of which it knows none. */
  lemma PromoteDecided(v: Value, t: Type, round: Rounding)
    ensures Promote(v, t, round).Some? <==> CheckPromote(TypeOf(v), t) || ArrayPromotes(TypeOf(v), SizeOf(v), t)
    ensures (Promote(v, t, round).Some? <==> CheckPromote(TypeOf(v), t)) <==>
      !ArrayPromotes(TypeOf(v), SizeOf(v), t)
  {
    assert ArrayPromotes(TypeOf(v), SizeOf(v), t) ==> !CheckPromote(TypeOf(v), t);
  }

  /** A promoted constant has the type asked for, unless that is axis, which arrays reach only as float arrays. */
  lemma PromotedType(v: Value, t: Type, round: Rounding)
    requires Promote(v, t, round).Some?
    ensures TypeOf(Promote(v, t, round).value) == t <==> TypeOf(v) == t || (IsConst(v) && t != Axis)
    ensures SizeOf(Promote(v, t, round).value) == SizeOf(v)
  {
  }

  /** Promoting in two steps is promoting in one. */
  lemma PromoteCoherent(v: Value, t: Type, u: Type, round: Rounding)
    requires Promote(v, t, round).Some? && Promote(Promote(v, t, round).value, u, round).Some?
    ensures Promote(Promote(v, t, round).value, u, round) == Promote(v, u, round)
  {
  }

  lemma CheckPromoteOrder(a: Type, b: Type, c: Type)
    ensures CheckPromote(a, b) && CheckPromote(b, c) ==> CheckPromote(a, c)
    ensures CheckPromote(a, b) && CheckPromote(b, a) ==> a == b
  {
  }

  const SCALARS: seq<Type> := [Bool, Int, Float, Complex]
  const ARRAYS: seq<Type> := [BoolArray, IntArray, FloatArray]

  /** Scalars can be promoted along this chain and no other way, arrays along theirs or, with three elements, to an
      axis; apart from that a value only has its own type. */
  lemma PromotionChains(v: Value, t: Type, round: Rounding)
    ensures Promote(v, t, round).Some? <==>
      || TypeOf(v) == t
      || (exists i, j :: 0 <= i < j < |SCALARS| && TypeOf(v) == SCALARS[i] && t == SCALARS[j])
      || (exists i, j :: 0 <= i < j < |ARRAYS| && TypeOf(v) == ARRAYS[i] && t == ARRAYS[j])
      || (t == Axis && SizeOf(v) == 3 && TypeOf(v) in ARRAYS)
  {
    PromoteDecided(v, t, round);
    ScalarChain(TypeOf(v), t);
    ArrayChain(TypeOf(v), t);
    assert TypeOf(v) in ARRAYS <==> TypeOf(v) in {BoolArray, IntArray, FloatArray};
  }

  lemma ScalarChain(a: Type, b: Type)
    ensures CheckPromote(a, b) <==>
      a == b || exists i, j :: 0 <= i < j < |SCALARS| && a == SCALARS[i] && b == SCALARS[j]
  {
    assert SCALARS[0] == Bool && SCALARS[1] == Int && SCALARS[2] == Float && SCALARS[3] == Complex;
  }

  lemma ArrayChain(a: Type, b: Type)
    ensures (a == BoolArray && b in {IntArray, FloatArray}) || (a == IntArray && b == FloatArray) <==>
      exists i, j :: 0 <= i < j < |ARRAYS| && a == ARRAYS[i] && b == ARRAYS[j]
  {
    assert ARRAYS[0] == BoolArray && ARRAYS[1] == IntArray && ARRAYS[2] == FloatArray;
  }

  /** What promotion makes of a value: true is 1, an integer is converted, a complex number has no imaginary part, an
      array is promoted element by element, and what is only known at run time stays as it is. */
  lemma PromotedValue(v: Value, t: Type, round: Rounding)
    requires Promote(v, t, round).Some? && TypeOf(v) != t
    ensures var r := Promote(v, t, round).value;
      match t
      case Int => v.ConstBool? ==> r == ConstInt(if v.b then 1 else 0)
      case Float => IsConst(v) ==> r == ConstFloat(round(Promote(v, Int, round).value.n))
      case Complex => IsConst(v) ==> r == ConstComplex(Promote(v, Float, round).value.f, 0.0)
      case _ => IsConst(v) ==> PromotedElements(v, r, if t == IntArray then Int else Float, round)
    ensures !IsConst(v) ==> Promote(v, t, round).value == v
  {
  }

  predicate PromotedElements(v: Value, r: Value, t: Type, round: Rounding) {
    && |Elements(r)| == |Elements(v)| == SizeOf(v)
    && forall i :: 0 <= i < |Elements(v)| ==> Promote(Elements(v)[i], t, round) == Some(Elements(r)[i])
  }

  // ----- initialization lists -----

  predicate Element(v: Value) {
    v.ConstBool? || v.ConstInt? || v.ConstFloat?
  }

  predicate AllElements(vs: seq<Value>) {
    forall i :: 0 <= i < |vs| ==> Element(vs[i])
  }

  /** The elements of an array, as scalars. */
  function Elements(v: Value): seq<Value> {
    match v
    case ConstBoolArray(bs) => seq(|bs|, i requires 0 <= i < |bs| => ConstBool(bs[i]))
    case ConstIntArray(ns) => seq(|ns|, i requires 0 <= i < |ns| => ConstInt(ns[i]))
    case ConstFloatArray(fs) => seq(|fs|, i requires 0 <= i < |fs| => ConstFloat(fs[i]))
    case _ => []
  }

  function ArrayType(t: Type): Type {
    match t
    case Bool => BoolArray
    case Int => IntArray
    case Float => FloatArray
    case _ => t
  }

  /** t is the least type that all the values can be promoted to. */
  ghost predicate Least(vs: seq<Value>, t: Type) {
    && (forall i :: 0 <= i < |vs| ==> CheckPromote(TypeOf(vs[i]), t))
    && exists i :: 0 <= i < |vs| && TypeOf(vs[i]) == t
  }

  /** build_array_value_from_promoted_values */
  method BuildArray(vs: seq<Value>, t: Type, round: Rounding) returns (r: Value)
    requires t in {Bool, Int, Float} && AllElements(vs) && forall i :: 0 <= i < |vs| ==> CheckPromote(TypeOf(vs[i]), t)
    ensures TypeOf(r) == ArrayType(t) && |Elements(r)| == |vs|
    ensures forall i :: 0 <= i < |vs| ==> Promote(vs[i], t, round) == Some(Elements(r)[i])
  {
    var bs, ns, fs := [], [], [];
    var i := 0;
    while i < |vs|
      invariant i <= |vs|
      invariant t == Bool ==> |bs| == i && forall k :: 0 <= k < i ==> Promote(vs[k], t, round) == Some(ConstBool(bs[k]))
      invariant t == Int ==> |ns| == i && forall k :: 0 <= k < i ==> Promote(vs[k], t, round) == Some(ConstInt(ns[k]))
      invariant t == Float ==> |fs| == i && forall k :: 0 <= k < i ==>
        Promote(vs[k], t, round) == Some(ConstFloat(fs[k]))
    {
      var p := Promote(vs[i], t, round);
      if t == Bool {
        bs := bs + [p.value.b];
      } else if t == Int {
        ns := ns + [p.value.n];
      } else {
        fs := fs + [p.value.f];
      }
      i := i + 1;
    }
    r := if t == Bool then ConstBoolArray(bs) else if t == Int then ConstIntArray(ns) else ConstFloatArray(fs);
  }

  /** visit_initialization_list: None with an error.  Refused are the empty list and elements that are not
      constant booleans, integers or floats; otherwise each element is promoted to their least common type. */
  method InitializationList(vs: seq<Value>, round: Rounding) returns (r: Option<Value>, ghost t: Type)
    ensures r.Some? <==> vs != [] && AllElements(vs)
    ensures r.Some? ==> Least(vs, t) && TypeOf(r.value) == ArrayType(t) && |Elements(r.value)| == |vs|
    ensures r.Some? ==> forall i :: 0 <= i < |vs| ==> Promote(vs[i], t, round) == Some(Elements(r.value)[i])
  {
    t := Bool;
    if vs == [] || !Element(vs[0]) {
      return None, t;
    }
    var highest := TypeOf(vs[0]);
    var i := 1;
    while i < |vs|
      invariant 1 <= i <= |vs| && highest in {Bool, Int, Float} && AllElements(vs[..i]) && Least(vs[..i], highest)
    {
      assert vs[..i + 1] == vs[..i] + [vs[i]];
      if !Element(vs[i]) {
        return None, t;
      }
      var typ := TypeOf(vs[i]);
      LeastStep(vs[..i], vs[i], highest);
      if CheckPromote(typ, highest) {
      } else if CheckPromote(highest, typ) {
        highest := typ;
      } else {
        return None, t;
      }
      i := i + 1;
    }
    assert vs[..i] == vs;
    t := highest;
    var a := BuildArray(vs, highest, round);
    r := Some(a);
  }

  lemma LeastStep(vs: seq<Value>, v: Value, t: Type)
    requires Least(vs, t) && Element(v) && AllElements(vs)
    ensures var all := vs + [v];
      && (CheckPromote(TypeOf(v), t) ==> Least(all, t))
      && (!CheckPromote(TypeOf(v), t) ==> CheckPromote(t, TypeOf(v)) && Least(all, TypeOf(v)))
  {
    var all := vs + [v];
    assert all[|vs|] == v && forall k :: 0 <= k < |vs| ==> all[k] == vs[k];
  }
}
