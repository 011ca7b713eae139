/** src/v3x/cqasm-functions.cpp: the functions that constant folding knows, registered so that the most specific
    overload of a name comes last, and what this means for the types of folded expressions. */
module Functions {
  import opened Wrappers
  import opened Promotion
  import opened Overloads

  datatype Fn =
    | Minus | Plus | Times | Div | Mod | Power | Eq | Ne | Ge | Gt | Le | Lt | BitNot
    | BitAnd | BitXor | BitOr | ShiftLeft | ShiftRight | Not | And | Xor | Or | Ternary
    | Sqrt | Exp | Log | Sin | Cos | Tan | Sinh | Cosh | Tanh | Asin | Acos | Atan | Asinh | Acosh | Atanh | Abs

  /** Parameter types in shorthand, one letter each. */
  datatype Spec = F | I | B | FF | II | BB | BFF | BII | BBB

  /** from_spec, for the shorthands that occur. */
  function FromSpec(s: Spec): seq<Type> {
    match s
    case F => [Float] case I => [Int] case B => [Bool]
    case FF => [Float, Float] case II => [Int, Int] case BB => [Bool, Bool]
    case BFF => [Bool, Float, Float] case BII => [Bool, Int, Int] case BBB => [Bool, Bool, Bool]
  }

  /** One registration, which also names the implementation: its function, its parameter types and the type of
      its result. */
  datatype Impl = Impl(fn: Fn, spec: Spec, ret: Type)

  type FunctionImplTable = OverloadedNameResolver<Fn, Impl>

  // ----- the registrations, in order -----

  const ARITHMETIC: seq<Impl> := [
    Impl(Minus, F, Float), Impl(Minus, I, Int), Impl(Plus, FF, Float),
    Impl(Plus, II, Int), Impl(Minus, FF, Float), Impl(Minus, II, Int),
    Impl(Times, FF, Float), Impl(Times, II, Int), Impl(Div, FF, Float),
    Impl(Div, II, Int), Impl(Mod, II, Int), Impl(Power, FF, Float)
  ]

  const COMPARISONS: seq<Impl> := [
    Impl(Eq, FF, Bool), Impl(Ne, FF, Bool), Impl(Ge, FF, Bool),
    Impl(Gt, FF, Bool), Impl(Le, FF, Bool), Impl(Lt, FF, Bool),
    Impl(Eq, II, Bool), Impl(Ne, II, Bool), Impl(Ge, II, Bool),
    Impl(Gt, II, Bool), Impl(Le, II, Bool), Impl(Lt, II, Bool),
    Impl(Eq, BB, Bool), Impl(Ne, BB, Bool), Impl(Ge, BB, Bool),
    Impl(Gt, BB, Bool), Impl(Le, BB, Bool), Impl(Lt, BB, Bool)
  ]

  const BITWISE: seq<Impl> := [
    Impl(BitNot, I, Int), Impl(BitAnd, II, Int), Impl(BitXor, II, Int),
    Impl(BitOr, II, Int), Impl(ShiftLeft, II, Int), Impl(ShiftRight, II, Int)
  ]

  const LOGICAL: seq<Impl> := [
    Impl(Not, B, Bool), Impl(And, BB, Bool), Impl(Xor, BB, Bool),
    Impl(Or, BB, Bool), Impl(Ternary, BFF, Float), Impl(Ternary, BII, Int),
    Impl(Ternary, BBB, Bool)
  ]

  const MATHEMATICAL: seq<Impl> := [
    Impl(Sqrt, F, Float), Impl(Exp, F, Float), Impl(Log, F, Float),
    Impl(Sin, F, Float), Impl(Cos, F, Float), Impl(Tan, F, Float),
    Impl(Sinh, F, Float), Impl(Cosh, F, Float), Impl(Tanh, F, Float)
  ]

  const INVERSE: seq<Impl> := [
    Impl(Asin, F, Float), Impl(Acos, F, Float), Impl(Atan, F, Float),
    Impl(Asinh, F, Float), Impl(Acosh, F, Float), Impl(Atanh, F, Float)
  ]

  const ABSOLUTE: seq<Impl> := [Impl(Abs, F, Float), Impl(Abs, I, Int)]

  const DEFAULTS: seq<Impl> := ARITHMETIC + COMPARISONS + BITWISE + LOGICAL + MATHEMATICAL + INVERSE + ABSOLUTE

  /** The overloads of a name among the registrations. */
  function Select(regs: seq<Impl>, f: Fn): seq<Overload<Impl>> {
    if regs == [] then []
      else (if regs[0].fn == f then [Overload(regs[0], FromSpec(regs[0].spec))] else []) + Select(regs[1..], f)
  }

  method RegisterAll(t: FunctionImplTable, regs: seq<Impl>)
    requires t.table == map[]
    modifies t
    ensures forall f :: OverloadsOf(t.table, f) == Select(regs, f)
  {
    var i := 0;
    while i < |regs|
      invariant i <= |regs|
      invariant forall f :: Select(regs, f) == OverloadsOf(t.table, f) + Select(regs[i..], f)
    {
      ghost var rest, was := regs[i..], t.table;
      var r := regs[i];
      t.AddOverload(r.fn, r, FromSpec(r.spec));
      forall f ensures Select(regs, f) == OverloadsOf(t.table, f) + Select(regs[i + 1..], f) {
        SelectStep(rest, f);
        assert rest[0] == r && rest[1..] == regs[i + 1..];
        if f == r.fn { ConcatAssoc(OverloadsOf(was, f), [Overload(r, FromSpec(r.spec))], Select(rest[1..], f)); }
      }
      i := i + 1;
    }
    forall f ensures OverloadsOf(t.table, f) == Select(regs, f) {
      assert regs[i..] == [] && OverloadsOf(t.table, f) + [] == OverloadsOf(t.table, f);
    }
  }

  /** register_default_function_impls_into */
  method RegisterDefaults(t: FunctionImplTable)
    requires t.table == map[]
    modifies t
    ensures forall f :: OverloadsOf(t.table, f) == Select(DEFAULTS, f)
  {
    RegisterAll(t, DEFAULTS);
  }

  lemma SelectStep(regs: seq<Impl>, f: Fn)
    requires regs != []
    ensures Select(regs, f) ==
      if regs[0].fn == f then [Overload(regs[0], FromSpec(regs[0].spec))] + Select(regs[1..], f)
      else Select(regs[1..], f)
  {
  }

  // ----- the order of the registrations -----

  function Arity(s: Spec): nat {
    match s
    case F => 1 case I => 1 case B => 1
    case BFF => 3 case BII => 3 case BBB => 3
    case _ => 2
  }

  function Level(s: Spec): nat {
    match s
    case F => 2 case FF => 2 case BFF => 2
    case I => 1 case II => 1 case BII => 1
    case _ => 0
  }

  lemma LevelFits(s: Spec, r: Spec)
    ensures |FromSpec(s)| == Arity(s) && ScalarParams(FromSpec(s))
    ensures Arity(s) == Arity(r) && Level(s) <= Level(r) ==> Fits(FromSpec(s), FromSpec(r))
  {
  }

  /** s, registered after r, is not the coarser one of two overloads of a name. */
  predicate Follows(r: Impl, s: Impl) {
    r.fn == s.fn && Arity(r.spec) == Arity(s.spec) ==> Level(s.spec) <= Level(r.spec)
  }

  predicate Ordered(regs: seq<Impl>) {
    forall i, j :: 0 <= i < j < |regs| ==> Follows(regs[i], regs[j])
  }

  lemma OrderedConcat(a: seq<Impl>, b: seq<Impl>, n: nat)
    requires Ordered(a) && Ordered(b) && InFamilies(a, 0, n) && InFamilies(b, n, n + 1)
    ensures Ordered(a + b) && InFamilies(a + b, 0, n + 1)
  {
    var c := a + b;
    forall i, j | 0 <= i < j < |c| ensures Follows(c[i], c[j]) {
      if j < |a| {
        assert Follows(a[i], a[j]);
      } else if i >= |a| {
        assert Follows(b[i - |a|], b[j - |a|]);
      }
    }
  }

  /** The group a function is registered in. */
  function Family(f: Fn): nat {
    match f
    case Minus => 0 case Plus => 0 case Times => 0 case Div => 0 case Mod => 0 case Power => 0
    case Eq => 1 case Ne => 1 case Ge => 1 case Gt => 1 case Le => 1 case Lt => 1
    case BitNot => 2 case BitAnd => 2 case BitXor => 2 case BitOr => 2 case ShiftLeft => 2 case ShiftRight => 2
    case Not => 3 case And => 3 case Xor => 3 case Or => 3 case Ternary => 3
    case Asin => 5 case Acos => 5 case Atan => 5 case Asinh => 5 case Acosh => 5 case Atanh => 5
    case Abs => 6
    case _ => 4
  }

  predicate InFamilies(regs: seq<Impl>, lo: nat, hi: nat) {
    forall i :: 0 <= i < |regs| ==> lo <= Family(regs[i].fn) < hi
  }

  /** The place of a registration among those of its group that mix coarse and fine overloads: the finer, the later. */
  function PlaceOf(r: Impl): int {
    match r.fn
    case Minus => (if Arity(r.spec) == 1 then 2 else 6) - Level(r.spec)
    case Plus => 4 - Level(r.spec)
    case Times => 8 - Level(r.spec)
    case Div => 10 - Level(r.spec)
    case Mod => 11 - Level(r.spec)
    case Power => 13 - Level(r.spec)
    case Not => 0
    case And => 1
    case Xor => 2
    case Or => 3
    case Ternary => 6 - Level(r.spec)
    case _ => 0
  }

  lemma ArithmeticOrdered()
    ensures Ordered(ARITHMETIC) && InFamilies(ARITHMETIC, 0, 1)
  {
    assert forall i :: 0 <= i < |ARITHMETIC| ==> PlaceOf(ARITHMETIC[i]) == i && Family(ARITHMETIC[i].fn) == 0;
  }

  lemma ComparisonsOrdered()
    ensures Ordered(COMPARISONS) && InFamilies(COMPARISONS, 1, 2)
  {
    assert forall i :: 0 <= i < |COMPARISONS| ==>
      Family(COMPARISONS[i].fn) == 1 && Level(COMPARISONS[i].spec) == if i < 6 then 2 else if i < 12 then 1 else 0;
  }

  lemma BitwiseOrdered()
    ensures Ordered(BITWISE) && InFamilies(BITWISE, 2, 3)
  {
    assert forall i :: 0 <= i < |BITWISE| ==> Level(BITWISE[i].spec) == 1 && Family(BITWISE[i].fn) == 2;
  }

  lemma LogicalOrdered()
    ensures Ordered(LOGICAL) && InFamilies(LOGICAL, 3, 4)
  {
    assert forall i :: 0 <= i < |LOGICAL| ==> PlaceOf(LOGICAL[i]) == i && Family(LOGICAL[i].fn) == 3;
    assert forall i :: 0 <= i < |LOGICAL| ==> LOGICAL[i].fn != Ternary ==> Level(LOGICAL[i].spec) == 0;
  }

  lemma MathematicalOrdered()
    ensures Ordered(MATHEMATICAL) && InFamilies(MATHEMATICAL, 4, 5)
  {
    assert forall i :: 0 <= i < |MATHEMATICAL| ==> Level(MATHEMATICAL[i].spec) == 2 && Family(MATHEMATICAL[i].fn) == 4;
  }

  lemma InverseOrdered()
    ensures Ordered(INVERSE) && InFamilies(INVERSE, 5, 6)
  {
    assert forall i :: 0 <= i < |INVERSE| ==> Level(INVERSE[i].spec) == 2 && Family(INVERSE[i].fn) == 5;
  }

  lemma AbsoluteOrdered()
    ensures Ordered(ABSOLUTE) && InFamilies(ABSOLUTE, 6, 7)
  {
  }

  lemma DefaultsOrdered()
    ensures Ordered(DEFAULTS)
  {
    ArithmeticOrdered(); ComparisonsOrdered(); BitwiseOrdered(); LogicalOrdered(); MathematicalOrdered();
    InverseOrdered(); AbsoluteOrdered();
    OrderedConcat(ARITHMETIC, COMPARISONS, 1);
    OrderedConcat(ARITHMETIC + COMPARISONS, BITWISE, 2);
    OrderedConcat(ARITHMETIC + COMPARISONS + BITWISE, LOGICAL, 3);
    OrderedConcat(ARITHMETIC + COMPARISONS + BITWISE + LOGICAL, MATHEMATICAL, 4);
    OrderedConcat(ARITHMETIC + COMPARISONS + BITWISE + LOGICAL + MATHEMATICAL, INVERSE, 5);
    OrderedConcat(ARITHMETIC + COMPARISONS + BITWISE + LOGICAL + MATHEMATICAL + INVERSE, ABSOLUTE, 6);
  }

  /** What Select yields comes from the registrations of the name. */
  ghost predicate Selected(regs: seq<Impl>, f: Fn, overloads: seq<Overload<Impl>>) {
    forall o :: o in overloads ==> FromReg(regs, f, o)
  }

  ghost predicate FromReg(regs: seq<Impl>, f: Fn, o: Overload<Impl>) {
    o.tag in regs && o.tag.fn == f && o.params == FromSpec(o.tag.spec)
  }

  lemma SelectedMore(regs: seq<Impl>, f: Fn, overloads: seq<Overload<Impl>>)
    requires regs != [] && Selected(regs[1..], f, overloads)
    ensures Selected(regs, f, overloads)
  {
    forall o | o in overloads ensures FromReg(regs, f, o) {
      assert FromReg(regs[1..], f, o);
    }
  }

  lemma {:induction false} SelectTags(regs: seq<Impl>, f: Fn)
    ensures Selected(regs, f, Select(regs, f))
  {
    if regs != [] {
      SelectTags(regs[1..], f);
      SelectStep(regs, f);
      SelectedMore(regs, f, Select(regs[1..], f));
    }
  }

  lemma SpecificCons(o: Overload<Impl>, rest: seq<Overload<Impl>>)
    requires SpecificLast(rest) && AllScalar(rest) && ScalarParams(o.params)
    requires forall k :: 0 <= k < |rest| && |rest[k].params| == |o.params| ==> Fits(rest[k].params, o.params)
    ensures SpecificLast([o] + rest) && AllScalar([o] + rest)
  {
    var all := [o] + rest;
    forall i, j | 0 <= i < j < |all| && |all[i].params| == |all[j].params| ensures Fits(all[j].params, all[i].params) {
      assert all[j] == rest[j - 1];
      if i > 0 { assert all[i] == rest[i - 1]; }
    }
  }

  /** The overloads of a name have scalar parameters and come most specific last. */
  lemma {:induction false} SelectOrdered(regs: seq<Impl>, f: Fn)
    requires Ordered(regs)
    ensures AllScalar(Select(regs, f)) && SpecificLast(Select(regs, f))
  {
    if regs != [] {
      var r, tail := regs[0], regs[1..];
      assert Ordered(tail) by {
        forall i, j | 0 <= i < j < |tail|
          ensures Follows(tail[i], tail[j])
        {
          assert Follows(regs[i + 1], regs[j + 1]);
        }
      }
      SelectOrdered(tail, f);
      SelectTags(tail, f);
      SelectStep(regs, f);
      LevelFits(r.spec, r.spec);
      var rest := Select(tail, f);
      if r.fn == f {
        forall k | 0 <= k < |rest| && |rest[k].params| == |FromSpec(r.spec)|
          ensures Fits(rest[k].params, FromSpec(r.spec))
        {
          assert FromReg(tail, f, rest[k]);
          var j :| 0 <= j < |tail| && tail[j] == rest[k].tag;
          assert Follows(regs[0], regs[j + 1]);
          LevelFits(rest[k].tag.spec, r.spec);
        }
        SpecificCons(Overload(r, FromSpec(r.spec)), rest);
      }
    }
  }

  // ----- folding constant expressions -----

  datatype Expr = Leaf(v: Value) | Call(f: Fn, args: seq<Expr>)

  predicate Constant(e: Expr) {
    match e
    case Leaf(v) => IsConst(v)
    case Call(_, args) => AllConstant(args)
  }

  predicate AllConstant(args: seq<Expr>) {
    forall i :: 0 <= i < |args| ==> Constant(args[i])
  }

  /** A call needs constants; anything else may stand for itself. */
  predicate Foldable(e: Expr) {
    e.Leaf? || Constant(e)
  }

  predicate AllFoldable(args: seq<Expr>) {
    forall i :: 0 <= i < |args| ==> Foldable(args[i])
  }

  /** The last overload that the types fit. */
  function LastFit(overloads: seq<Overload<Impl>>, types: seq<Type>): Option<Impl> {
    if overloads == [] then None
    else
      var k := |overloads| - 1;
      if Fits(types, overloads[k].params) then Some(overloads[k].tag) else LastFit(overloads[..k], types)
  }

  /** The type of an expression, computed without its values. */
  function TypeCheck(e: Expr): Option<Type>
    decreases e, 0
  {
    match e
    case Leaf(v) => Some(TypeOf(v))
    case Call(f, args) =>
      match TypeCheckAll(args)
      case None => None
      case Some(types) =>
        match LastFit(Select(DEFAULTS, f), types)
        case None => None
        case Some(impl) => Some(impl.ret)
  }

  function TypeCheckAll(args: seq<Expr>): Option<seq<Type>>
    decreases args, 0
  {
    if args == [] then Some([])
    else
      match TypeCheckAll(args[..|args| - 1])
      case None => None
      case Some(types) =>
        match TypeCheck(args[|args| - 1])
        case None => None
        case Some(t) => Some(types + [t])
  }

  lemma {:induction false} LastFitChosen(overloads: seq<Overload<Impl>>, args: seq<Value>, round: Rounding, k: nat)
    requires AllScalar(overloads)
    ensures LastApplicable(overloads, args, round, k) ==> LastFit(overloads, TypesOf(args)) == Some(overloads[k].tag)
    ensures NoneApplicable(overloads, args, round) ==> LastFit(overloads, TypesOf(args)) == None
  {
    if overloads != [] {
      var n := |overloads| - 1;
      FitsApplicable(overloads[n].params, args, round);
      LastFitChosen(overloads[..n], args, round, k);
    }
  }

  predicate AllConst(vs: seq<Value>) {
    forall i :: 0 <= i < |vs| ==> IsConst(vs[i])
  }

  /** What an implementation can assume: constants of exactly its parameter types. */
  predicate Takes(i: Impl, vs: seq<Value>) {
    TypesOf(vs) == FromSpec(i.spec) && AllConst(vs)
  }

  /** Whatever the registered implementations compute from such constants, it has their result type. */
  ghost predicate WellTyped(run: (Impl, seq<Value>) -> Value) {
    forall i, vs :: i in DEFAULTS && Takes(i, vs) ==> IsConst(run(i, vs)) && TypeOf(run(i, vs)) == i.ret
  }

  function Nought(t: Type): Value {
    match t
    case Bool => ConstBool(false)
    case Int => ConstInt(0)
    case _ => ConstFloat(0.0)
  }

  predicate ReturnScalars(regs: seq<Impl>) {
    forall i :: 0 <= i < |regs| ==> regs[i].ret in {Bool, Int, Float}
  }

  lemma ReturnScalarsConcat(a: seq<Impl>, b: seq<Impl>)
    requires ReturnScalars(a) && ReturnScalars(b)
    ensures ReturnScalars(a + b)
  {
  }

  lemma DefaultsReturnScalars()
    ensures ReturnScalars(DEFAULTS)
  {
    ReturnScalarsConcat(ARITHMETIC, COMPARISONS);
    ReturnScalarsConcat(ARITHMETIC + COMPARISONS, BITWISE);
    ReturnScalarsConcat(ARITHMETIC + COMPARISONS + BITWISE, LOGICAL);
    ReturnScalarsConcat(ARITHMETIC + COMPARISONS + BITWISE + LOGICAL, MATHEMATICAL);
    ReturnScalarsConcat(ARITHMETIC + COMPARISONS + BITWISE + LOGICAL + MATHEMATICAL, INVERSE);
    ReturnScalarsConcat(ARITHMETIC + COMPARISONS + BITWISE + LOGICAL + MATHEMATICAL + INVERSE, ABSOLUTE);
  }

  /** There are such implementations. */
  lemma WellTypedSome()
    ensures exists run :: WellTyped(run)
  {
    var run := (i: Impl, vs: seq<Value>) => Nought(i.ret);
    DefaultsReturnScalars();
    var regs := DEFAULTS;
    forall i, vs | i in regs && Takes(i, vs) ensures IsConst(run(i, vs)) && TypeOf(run(i, vs)) == i.ret {
      assert i.ret in {Bool, Int, Float};
    }
    assert WellTyped(run);
  }

  lemma PromotedTypes(params: seq<Type>, args: seq<Value>, round: Rounding)
    requires ScalarParams(params) && Applicable(params, args, round)
    ensures AllConst(Promoted(params, args, round)) <==> AllConst(args)
    ensures AllConst(args) ==> TypesOf(Promoted(params, args, round)) == params
  {
    var ps := Promoted(params, args, round);
    forall i | 0 <= i < |args|
      ensures (IsConst(ps[i]) <==> IsConst(args[i])) && (IsConst(args[i]) ==> TypeOf(ps[i]) == params[i])
    {
      PromotedType(args[i], params[i], round);
    }
  }

  /** The implementation chosen gets what it can assume, or sees that an argument is not constant. */
  lemma ChosenTakes(f: Fn, args: seq<Value>, round: Rounding, k: nat)
    requires LastApplicable(Select(DEFAULTS, f), args, round, k)
    ensures var o := Select(DEFAULTS, f)[k];
      && o.tag in DEFAULTS && (AllConst(Promoted(o.params, args, round)) <==> AllConst(args))
      && (AllConst(args) ==> Takes(o.tag, Promoted(o.params, args, round)))
  {
    SelectTags(DEFAULTS, f);
    var o := Select(DEFAULTS, f)[k];
    assert FromReg(DEFAULTS, f, o);
    LevelFits(o.tag.spec, o.tag.spec);
    PromotedTypes(o.params, args, round);
  }

  method AreConst(vs: seq<Value>) returns (ok: bool)
    ensures ok <==> AllConst(vs)
  {
    var i := 0;
    while i < |vs|
      invariant i <= |vs| && AllConst(vs[..i])
    {
      assert vs[..i + 1] == vs[..i] + [vs[i]];
      if !IsConst(vs[i]) {
        return false;
      }
      i := i + 1;
    }
    assert vs[..i] == vs;
    return true;
  }

  /** The table holds the default functions. */
  ghost predicate HoldsDefaults(t: FunctionImplTable)
    reads t
  {
    forall f :: OverloadsOf(t.table, f) == Select(DEFAULTS, f)
  }

  // ----- which value an expression has -----

  /** v is what the implementation of the last applicable overload of f computes from the arguments, all of them
      constant, each in its place and promoted to its parameter. */
  ghost predicate Computes(f: Fn, vs: seq<Value>, run: (Impl, seq<Value>) -> Value, round: Rounding, v: Value) {
    ComputesFrom(Select(DEFAULTS, f), vs, run, round, v)
  }

  ghost predicate ComputesFrom(overloads: seq<Overload<Impl>>, vs: seq<Value>, run: (Impl, seq<Value>) -> Value,
      round: Rounding, v: Value)
  {
    AllConst(vs) && exists k: nat :: ComputesBy(overloads, k, vs, run, round, v)
  }

  ghost predicate ComputesBy(overloads: seq<Overload<Impl>>, k: nat, vs: seq<Value>,
      run: (Impl, seq<Value>) -> Value, round: Rounding, v: Value)
  {
    && LastApplicable(overloads, vs, round, k)
    && v == run(overloads[k].tag, Promoted(overloads[k].params, vs, round))
  }

  /** Only one value is computed, if any. */
  lemma ComputesOnce(overloads: seq<Overload<Impl>>, k: nat, vs: seq<Value>, run: (Impl, seq<Value>) -> Value,
      round: Rounding)
    requires AllConst(vs) && LastApplicable(overloads, vs, round, k)
    ensures forall w :: ComputesFrom(overloads, vs, run, round, w) <==>
      w == run(overloads[k].tag, Promoted(overloads[k].params, vs, round))
  {
    var v := run(overloads[k].tag, Promoted(overloads[k].params, vs, round));
    assert ComputesBy(overloads, k, vs, run, round, v);
    forall w | ComputesFrom(overloads, vs, run, round, w) ensures w == v {
      var j: nat :| ComputesBy(overloads, j, vs, run, round, w);
      assert j == k;
    }
  }

  lemma ComputesNot(overloads: seq<Overload<Impl>>, vs: seq<Value>, run: (Impl, seq<Value>) -> Value, round: Rounding)
    requires NoneApplicable(overloads, vs, round) || !AllConst(vs)
    ensures forall w :: !ComputesFrom(overloads, vs, run, round, w)
  {
  }

  /** Values stand for themselves, and calls for what is computed from the values of their arguments. */
  ghost predicate Evaluates(e: Expr, run: (Impl, seq<Value>) -> Value, round: Rounding, v: Value)
    decreases e, 0
  {
    match e
    case Leaf(c) => v == c
    case Call(f, args) => exists vs :: EvaluateAll(args, run, round, vs) && Computes(f, vs, run, round, v)
  }

  ghost predicate EvaluateAll(args: seq<Expr>, run: (Impl, seq<Value>) -> Value, round: Rounding, vs: seq<Value>)
    decreases args, 0
  {
    |vs| == |args| && forall i :: 0 <= i < |args| ==> Evaluates(args[i], run, round, vs[i])
  }

  /** The registration for exactly these parameter types is the one that runs, and gets the arguments as they are. */
  lemma ExactComputes(i: Impl, vs: seq<Value>, run: (Impl, seq<Value>) -> Value, round: Rounding)
    requires i in DEFAULTS && Takes(i, vs)
    ensures Computes(i.fn, vs, run, round, run(i, vs))
  {
    var overloads := Select(DEFAULTS, i.fn);
    SelectHas(DEFAULTS, i);
    var j :| 0 <= j < |overloads| && overloads[j] == Overload(i, FromSpec(i.spec));
    forall m | 0 <= m < |vs| ensures Promote(vs[m], FromSpec(i.spec)[m], round) == Some(vs[m]) {
      assert TypesOf(vs)[m] == TypeOf(vs[m]);
    }
    var k := LastOf(overloads, vs, round, j);
    LeastDefault(i.fn, vs, round, k);
    ChosenExact(i, vs, round, k);
    assert Promoted(overloads[k].params, vs, round) == vs;
    ComputesOnce(overloads, k, vs, run, round);
  }

  /** With a float among two constants the float version runs. */
  lemma FloatComputes(i: Impl, vs: seq<Value>, run: (Impl, seq<Value>) -> Value, round: Rounding)
    requires i in DEFAULTS && i.spec == FF && AllConst(vs) && Applicable([Float, Float], vs, round)
    requires vs[0].ConstFloat? || vs[1].ConstFloat?
    ensures Computes(i.fn, vs, run, round, run(i, Promoted([Float, Float], vs, round)))
  {
    var overloads := Select(DEFAULTS, i.fn);
    SelectHas(DEFAULTS, i);
    var j :| 0 <= j < |overloads| && overloads[j] == Overload(i, FromSpec(i.spec));
    var k := LastOf(overloads, vs, round, j);
    LeastDefault(i.fn, vs, round, k);
    FloatChosen(i, vs, round, k);
    ComputesOnce(overloads, k, vs, run, round);
  }

  lemma FloatChosen(i: Impl, vs: seq<Value>, round: Rounding, k: nat)
    requires i in DEFAULTS && i.spec == FF && |vs| == 2 && (vs[0].ConstFloat? || vs[1].ConstFloat?)
    requires LastApplicable(Select(DEFAULTS, i.fn), vs, round, k)
    requires Fits(Select(DEFAULTS, i.fn)[k].params, [Float, Float])
    ensures Select(DEFAULTS, i.fn)[k] == Overload(i, [Float, Float])
  {
    SelectTags(DEFAULTS, i.fn);
    var o := Select(DEFAULTS, i.fn)[k];
    assert FromReg(DEFAULTS, i.fn, o);
    LevelFits(o.tag.spec, o.tag.spec);
    FitsApplicable(o.params, vs, round);
    var f := if vs[0].ConstFloat? then 0 else 1;
    assert CheckPromote(TypesOf(vs)[f], o.params[f]) && CheckPromote(o.params[f], [Float, Float][f]);
    assert o.tag.spec == FF;
    DefaultsReturn();
    SameRegistration(DEFAULTS, o.tag, i);
  }

  lemma {:induction false} SelectHas(regs: seq<Impl>, i: Impl)
    requires i in regs
    ensures Overload(i, FromSpec(i.spec)) in Select(regs, i.fn)
  {
    SelectStep(regs, i.fn);
    if regs[0] == i {
      assert Select(regs, i.fn)[0] == Overload(i, FromSpec(i.spec));
    } else {
      SelectHas(regs[1..], i);
    }
  }

  lemma {:induction false} LastOf(overloads: seq<Overload<Impl>>, vs: seq<Value>, round: Rounding, j: nat)
    returns (k: nat)
    requires j < |overloads| && Applicable(overloads[j].params, vs, round)
    ensures LastApplicable(overloads, vs, round, k)
    decreases |overloads| - j
  {
    if i: nat :| j < i < |overloads| && Applicable(overloads[i].params, vs, round) {
      k := LastOf(overloads, vs, round, i);
    } else {
      k := j;
    }
  }

  lemma ChosenExact(i: Impl, vs: seq<Value>, round: Rounding, k: nat)
    requires i in DEFAULTS && Takes(i, vs) && LastApplicable(Select(DEFAULTS, i.fn), vs, round, k)
    requires Fits(Select(DEFAULTS, i.fn)[k].params, FromSpec(i.spec))
    ensures Select(DEFAULTS, i.fn)[k] == Overload(i, FromSpec(i.spec))
  {
    SelectTags(DEFAULTS, i.fn);
    var o := Select(DEFAULTS, i.fn)[k];
    assert FromReg(DEFAULTS, i.fn, o);
    LevelFits(o.tag.spec, o.tag.spec);
    FitsApplicable(o.params, vs, round);
    SameSpec(o.tag.spec, i.spec);
    DefaultsReturn();
    SameRegistration(DEFAULTS, o.tag, i);
  }

  /** Types that fit in both directions are the same. */
  lemma SameSpec(s: Spec, r: Spec)
    requires Fits(FromSpec(s), FromSpec(r)) && Fits(FromSpec(r), FromSpec(s))
    ensures s == r
  {
    assert CheckPromote(FromSpec(s)[0], FromSpec(r)[0]) && CheckPromote(FromSpec(r)[0], FromSpec(s)[0]);
    if Arity(s) > 1 {
      assert CheckPromote(FromSpec(s)[1], FromSpec(r)[1]) && CheckPromote(FromSpec(r)[1], FromSpec(s)[1]);
    }
  }

  /** What the functions of a group return: comparisons booleans, and all others the type of their last parameter. */
  function Returns(f: Fn, s: Spec): Type {
    if Family(f) == 1 || Level(s) == 0 then Bool else if Level(s) == 1 then Int else Float
  }

  predicate AllReturn(regs: seq<Impl>) {
    forall i :: 0 <= i < |regs| ==> regs[i].ret == Returns(regs[i].fn, regs[i].spec)
  }

  lemma AllReturnConcat(a: seq<Impl>, b: seq<Impl>)
    requires AllReturn(a) && AllReturn(b)
    ensures AllReturn(a + b)
  {
  }

  lemma ArithmeticReturns() ensures AllReturn(ARITHMETIC) {}

  lemma ComparisonsReturn() ensures AllReturn(COMPARISONS) {}

  lemma BitwiseReturns() ensures AllReturn(BITWISE) {}

  lemma LogicalReturns() ensures AllReturn(LOGICAL) {}

  lemma MathematicalReturns() ensures AllReturn(MATHEMATICAL) {}

  lemma InverseReturns() ensures AllReturn(INVERSE) {}

  lemma AbsoluteReturns() ensures AllReturn(ABSOLUTE) {}

  lemma DefaultsReturn()
    ensures AllReturn(DEFAULTS)
  {
    ArithmeticReturns(); ComparisonsReturn(); BitwiseReturns(); LogicalReturns(); MathematicalReturns();
    InverseReturns(); AbsoluteReturns();
    AllReturnConcat(ARITHMETIC, COMPARISONS);
    AllReturnConcat(ARITHMETIC + COMPARISONS, BITWISE);
    AllReturnConcat(ARITHMETIC + COMPARISONS + BITWISE, LOGICAL);
    AllReturnConcat(ARITHMETIC + COMPARISONS + BITWISE + LOGICAL, MATHEMATICAL);
    AllReturnConcat(ARITHMETIC + COMPARISONS + BITWISE + LOGICAL + MATHEMATICAL, INVERSE);
    AllReturnConcat(ARITHMETIC + COMPARISONS + BITWISE + LOGICAL + MATHEMATICAL + INVERSE, ABSOLUTE);
  }

  /** Registrations of a name for the same parameter types are the same. */
  lemma SameRegistration(regs: seq<Impl>, i: Impl, j: Impl)
    requires AllReturn(regs) && i in regs && j in regs && i.fn == j.fn && i.spec == j.spec
    ensures i == j
  {
  }

  /** a - b has the difference as its value, however deep in an expression, if the integer version subtracts. */
  lemma DifferenceEvaluates(a: int, b: int, run: (Impl, seq<Value>) -> Value, round: Rounding)
    requires run(Impl(Minus, II, Int), [ConstInt(a), ConstInt(b)]) == ConstInt(a - b)
    ensures Evaluates(Call(Minus, [Leaf(ConstInt(a)), Leaf(ConstInt(b))]), run, round, ConstInt(a - b))
  {
    var vs := [ConstInt(a), ConstInt(b)];
    DifferenceRegistered();
    assert Takes(Impl(Minus, II, Int), vs);
    ExactComputes(Impl(Minus, II, Int), vs, run, round);
    assert EvaluateAll([Leaf(ConstInt(a)), Leaf(ConstInt(b))], run, round, vs);
  }

  lemma DifferenceRegistered()
    ensures Impl(Minus, II, Int) in DEFAULTS
  {
    assert ARITHMETIC[5] == Impl(Minus, II, Int) && Impl(Minus, II, Int) in ARITHMETIC;
  }

  lemma DivisionRegistered()
    ensures Impl(Div, FF, Float) in DEFAULTS
  {
    assert ARITHMETIC[8] == Impl(Div, FF, Float) && Impl(Div, FF, Float) in ARITHMETIC;
  }

  lemma BothFloats(a: int, x: real, round: Rounding)
    ensures var params, vs := [Float, Float], [ConstInt(a), ConstFloat(x)];
      Applicable(params, vs, round) && Promoted(params, vs, round) == [ConstFloat(round(a)), ConstFloat(x)]
  {
    assert Applicable([Float, Float], [ConstInt(a), ConstFloat(x)], round);
  }

  /** An integer divided by a float: both become floats first. */
  lemma QuotientEvaluates(a: int, x: real, q: real, run: (Impl, seq<Value>) -> Value, round: Rounding)
    requires run(Impl(Div, FF, Float), [ConstFloat(round(a)), ConstFloat(x)]) == ConstFloat(q)
    ensures Evaluates(Call(Div, [Leaf(ConstInt(a)), Leaf(ConstFloat(x))]), run, round, ConstFloat(q))
  {
    var vs := [ConstInt(a), ConstFloat(x)];
    DivisionRegistered();
    BothFloats(a, x, round);
    FloatComputes(Impl(Div, FF, Float), vs, run, round);
    assert EvaluateAll([Leaf(ConstInt(a)), Leaf(ConstFloat(x))], run, round, vs);
  }

  // ----- folding -----

  /** FunctionImplTable::resolve: the overload that runs is the least applicable one; None with an error. */
  method Apply(t: FunctionImplTable, f: Fn, vs: seq<Value>, run: (Impl, seq<Value>) -> Value, round: Rounding)
    returns (v: Option<Value>)
    requires HoldsDefaults(t) && WellTyped(run)
    ensures v.Some? <==> LastFit(Select(DEFAULTS, f), TypesOf(vs)).Some? && AllConst(vs)
    ensures v.Some? ==> IsConst(v.value) && TypeOf(v.value) == LastFit(Select(DEFAULTS, f), TypesOf(vs)).value.ret
    ensures forall w :: Computes(f, vs, run, round, w) <==> v == Some(w)
  {
    DefaultsOrdered();
    SelectOrdered(DEFAULTS, f);
    var r, k := t.Resolve(f, vs, round);
    LastFitChosen(Select(DEFAULTS, f), vs, round, k);
    if r.None? {
      ComputesNot(Select(DEFAULTS, f), vs, run, round);
      return None;
    }
    ChosenTakes(f, vs, round, k);
    var constant := AreConst(r.value.1);
    if !constant {
      ComputesNot(Select(DEFAULTS, f), vs, run, round);
      return None;
    }
    ComputesOnce(Select(DEFAULTS, f), k, vs, run, round);
    v := Some(run(r.value.0, r.value.1));
  }

  /** Folds an expression with the default functions to its value, if it has one.  Whether it folds, and to a value of
      which type, is what the type checker says, given that every call is on constants. */
  method Fold(t: FunctionImplTable, e: Expr, run: (Impl, seq<Value>) -> Value, round: Rounding)
    returns (v: Option<Value>)
    requires HoldsDefaults(t) && WellTyped(run)
    ensures v.Some? <==> TypeCheck(e).Some? && Foldable(e)
    ensures v.Some? ==> TypeOf(v.value) == TypeCheck(e).value && (IsConst(v.value) <==> Constant(e))
    ensures forall w :: Evaluates(e, run, round, w) <==> v == Some(w)
    decreases e, 1
  {
    match e
    case Leaf(c) => v := Some(c);
    case Call(f, args) =>
      var vs := FoldAll(t, args, run, round);
      if vs.None? {
        assert AllConstant(args) ==> AllFoldable(args);
        return None;
      }
      v := Apply(t, f, vs.value, run, round);
      assert EvaluateAll(args, run, round, vs.value);
  }

  method FoldAll(t: FunctionImplTable, args: seq<Expr>, run: (Impl, seq<Value>) -> Value, round: Rounding)
    returns (vs: Option<seq<Value>>)
    requires HoldsDefaults(t) && WellTyped(run)
    ensures vs.Some? <==> TypeCheckAll(args).Some? && AllFoldable(args)
    ensures vs.Some? ==> TypesOf(vs.value) == TypeCheckAll(args).value && (AllConst(vs.value) <==> AllConstant(args))
    ensures forall ws :: EvaluateAll(args, run, round, ws) <==> vs == Some(ws)
    decreases args, 1
  {
    var acc := [];
    var i := 0;
    assert TypesOf(acc) == [];
    while i < |args|
      invariant i <= |args| && TypeCheckAll(args[..i]) == Some(TypesOf(acc)) && |acc| == i
      invariant forall k :: 0 <= k < i ==> Foldable(args[k]) && (IsConst(acc[k]) <==> Constant(args[k]))
      invariant forall k, w :: 0 <= k < i ==> (Evaluates(args[k], run, round, w) <==> w == acc[k])
    {
      assert args[..i + 1][..i] == args[..i] && args[..i + 1][i] == args[i];
      var v := Fold(t, args[i], run, round);
      if v.None? {
        if TypeCheck(args[i]).None? { TypeCheckPrefix(args, i + 1); }
        NoValue(args, i, run, round);
        return None;
      }
      assert TypesOf(acc + [v.value]) == TypesOf(acc) + [TypeOf(v.value)];
      acc := acc + [v.value];
      i := i + 1;
    }
    assert args[..i] == args;
    vs := Some(acc);
    OnlyValues(args, acc, run, round);
  }

  lemma ValueAt(args: seq<Expr>, i: nat, run: (Impl, seq<Value>) -> Value, round: Rounding, ws: seq<Value>)
    requires i < |args| && EvaluateAll(args, run, round, ws)
    ensures Evaluates(args[i], run, round, ws[i])
  {
  }

  lemma NoValue(args: seq<Expr>, i: nat, run: (Impl, seq<Value>) -> Value, round: Rounding)
    requires i < |args| && forall w :: !Evaluates(args[i], run, round, w)
    ensures forall ws :: !EvaluateAll(args, run, round, ws)
  {
    forall ws ensures !EvaluateAll(args, run, round, ws) {
      if EvaluateAll(args, run, round, ws) { ValueAt(args, i, run, round, ws); }
    }
  }

  lemma OnlyValues(args: seq<Expr>, vs: seq<Value>, run: (Impl, seq<Value>) -> Value, round: Rounding)
    requires |vs| == |args|
    requires forall k, w :: 0 <= k < |args| ==> (Evaluates(args[k], run, round, w) <==> w == vs[k])
    ensures forall ws :: EvaluateAll(args, run, round, ws) <==> ws == vs
  {
    forall ws | EvaluateAll(args, run, round, ws) ensures ws == vs {
      forall k | 0 <= k < |args| ensures ws[k] == vs[k] { assert Evaluates(args[k], run, round, ws[k]); }
    }
  }

  lemma {:induction false} TypeCheckPrefix(args: seq<Expr>, n: nat)
    requires n <= |args| && TypeCheckAll(args[..n]).None?
    ensures TypeCheckAll(args).None?
  {
    if n == |args| {
      assert args[..n] == args;
    } else {
      assert args[..|args| - 1][..n] == args[..n];
      TypeCheckPrefix(args[..|args| - 1], n);
    }
  }

  /** Where both can run, the integer version of a function is preferred to the float version. */
  lemma LeastDefault(f: Fn, args: seq<Value>, round: Rounding, k: nat)
    requires LastApplicable(Select(DEFAULTS, f), args, round, k)
    ensures forall j :: 0 <= j < |Select(DEFAULTS, f)| && Applicable(Select(DEFAULTS, f)[j].params, args, round) ==>
      Fits(Select(DEFAULTS, f)[k].params, Select(DEFAULTS, f)[j].params)
  {
    DefaultsOrdered();
    SelectOrdered(DEFAULTS, f);
    var overloads := Select(DEFAULTS, f);
    LeastChosen(overloads, args, round, k);
    forall j | 0 <= j < |overloads| && Applicable(overloads[j].params, args, round)
      ensures Fits(overloads[k].params, overloads[j].params)
    {
      FitsApplicable(overloads[j].params, args, round);
    }
  }
}
