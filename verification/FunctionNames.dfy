/** What the names and statements of a function mean: which variable a name stands for, which types can be written, and
    when a statement is free of errors. */
module FunctionNames {
  import opened Wrappers
  import opened Promotion
  import opened FunctionScopes

  // ----- parameters and local variables -----

  function Declares(params: seq<Declaration>): seq<Statement> {
    seq(|params|, i requires 0 <= i < |params| => Declare(params[i]))
  }

  /** The parameters of a function and the statements of its body, in order. */
  function Whole(f: Function): seq<Statement> {
    Declares(f.params) + f.body
  }

  lemma {:induction false} AfterAllConcat(a: seq<Statement>, b: seq<Statement>, local: Scope, outer: seq<Scope>)
    ensures AfterAll(a + b, local, outer) == AfterAll(b, AfterAll(a, local, outer), outer)
  {
    if a == [] {
      assert a + b == b;
    } else {
      assert (a + b)[0] == a[0] && (a + b)[1..] == a[1..] + b;
      AfterAllConcat(a[1..], b, After(a[0], local, outer), outer);
    }
  }

  lemma {:induction false} ParametersDeclare(params: seq<Declaration>, local: Scope, outer: seq<Scope>)
    ensures Parameters(params, local) == AfterAll(Declares(params), local, outer)
  {
    if params != [] {
      assert Declares(params)[1..] == Declares(params[1..]);
      ParametersDeclare(params[1..], Declared(local, params[0]), outer);
    }
  }

  /** The frame in which a statement of a function stands. */
  function FrameAt(body: seq<Statement>, i: nat, local: Scope, outer: seq<Scope>): Scope
    requires i <= |body|
  {
    AfterAll(body[..i], local, outer)
  }

  /** Statement i brings in a variable of that name. */
  predicate Introduces(body: seq<Statement>, i: nat, name: string, local: Scope, outer: seq<Scope>)
    requires i < |body|
  {
    match body[i]
    case Declare(d) => d.name == name && Build(d.typ).Some?
    case Initialize(d, rhs) =>
      d.name == name && Build(d.typ).Some? && Evaluate(rhs, [FrameAt(body, i, local, outer)] + outer).Some?
    case _ => false
  }

  lemma FrameNext(body: seq<Statement>, i: nat, local: Scope, outer: seq<Scope>)
    requires i < |body|
    ensures FrameAt(body, i + 1, local, outer) == After(body[i], FrameAt(body, i, local, outer), outer)
  {
    assert body[..i + 1] == body[..i] + [body[i]] && [body[i]][1..] == [];
    AfterAllConcat(body[..i], [body[i]], local, outer);
  }

  /** Up to n, statement i is the last that brings in the name. */
  ghost predicate LastIntroduced(body: seq<Statement>, i: nat, n: nat, name: string, local: Scope, outer: seq<Scope>) {
    && i < n <= |body| && Introduces(body, i, name, local, outer)
    && forall j :: i < j < n ==> !Introduces(body, j, name, local, outer)
  }

  /** From its introduction to the next one of the same name, a variable is what the name stands for, whatever the
      frames around hold. */
  lemma {:induction false} LocalHolds(body: seq<Statement>, i: nat, n: nat, name: string, local: Scope,
      outer: seq<Scope>)
    requires LastIntroduced(body, i, n, name, local, outer)
    ensures Lookup([FrameAt(body, n, local, outer)] + outer, name) == Build(body[i].decl.typ)
    decreases n
  {
    FrameNext(body, n - 1, local, outer);
    if i < n - 1 {
      assert !Introduces(body, n - 1, name, local, outer);
      LocalHolds(body, i, n - 1, name, local, outer);
      Untouched(body, n - 1, name, local, outer);
    }
  }

  lemma Untouched(body: seq<Statement>, i: nat, name: string, local: Scope, outer: seq<Scope>)
    requires i < |body| && !Introduces(body, i, name, local, outer)
    ensures Lookup([FrameAt(body, i + 1, local, outer)] + outer, name)
      == Lookup([FrameAt(body, i, local, outer)] + outer, name)
  {
    FrameNext(body, i, local, outer);
    assert ([FrameAt(body, i, local, outer)] + outer)[1..] == outer;
    assert ([FrameAt(body, i + 1, local, outer)] + outer)[1..] == outer;
  }

  /** A name that nothing in the function has brought in so far is looked up in the frames around. */
  lemma {:induction false} OuterHolds(body: seq<Statement>, n: nat, name: string, local: Scope, outer: seq<Scope>)
    requires n <= |body| && name !in local.variables
    requires forall j :: 0 <= j < n ==> !Introduces(body, j, name, local, outer)
    ensures Lookup([FrameAt(body, n, local, outer)] + outer, name) == Lookup(outer, name)
  {
    if n == 0 {
      assert body[..0] == [] && ([local] + outer)[1..] == outer;
    } else {
      OuterHolds(body, n - 1, name, local, outer);
      assert !Introduces(body, n - 1, name, local, outer);
      Untouched(body, n - 1, name, local, outer);
    }
  }

  /** In a function, where m of the statements of its body have been visited: a name stands for the last parameter or
      local variable of that name, and if there is none for what it is around. */
  lemma NamesInFunction(f: Function, m: nat, name: string, outer: seq<Scope>)
    requires m <= |f.body|
    ensures var w, n := Whole(f), |f.params| + m;
      var found := Lookup([FrameAt(f.body, m, Start(f), outer)] + outer, name);
      && (forall i: nat :: LastIntroduced(w, i, n, name, EMPTY, outer) ==> found == Build(w[i].decl.typ))
      && ((forall j :: 0 <= j < n ==> !Introduces(w, j, name, EMPTY, outer)) ==> found == Lookup(outer, name))
  {
    var w, n := Whole(f), |f.params| + m;
    WholeFrame(f, m, outer);
    forall i: nat | LastIntroduced(w, i, n, name, EMPTY, outer)
      ensures Lookup([FrameAt(w, n, EMPTY, outer)] + outer, name) == Build(w[i].decl.typ)
    {
      LocalHolds(w, i, n, name, EMPTY, outer);
    }
    if forall j :: 0 <= j < n ==> !Introduces(w, j, name, EMPTY, outer) { OuterHolds(w, n, name, EMPTY, outer); }
  }

  lemma WholeFrame(f: Function, m: nat, outer: seq<Scope>)
    requires m <= |f.body|
    ensures FrameAt(f.body, m, Start(f), outer) == FrameAt(Whole(f), |f.params| + m, EMPTY, outer)
  {
    ParametersDeclare(f.params, EMPTY, outer);
    AfterAllConcat(Declares(f.params), f.body[..m], EMPTY, outer);
    assert Whole(f)[..|f.params| + m] == Declares(f.params) + f.body[..m];
  }

  /** A parameter is found although a mapping of the same name is there from the start. */
  lemma ParameterShadows(name: string, around: Value, round: Rounding)
    ensures Registers(Function("f", Some(Written("int", None)), [Declaration(name, Written("int", None))],
      [Return(Var(name))]), [Scope(map[name := around], [])], round)
  {
    var d, r, outer := Declaration(name, Written("int", None)), Return(Var(name)), [Scope(map[name := around], [])];
    var f := Function("f", Some(Written("int", None)), [d], [r]);
    assert [d][1..] == [] && [r][1..] == [];
    assert Parameters([d], EMPTY) == Parameters([], Declared(EMPTY, d)) == Declared(EMPTY, d);
    assert Declared(EMPTY, d) == Scope(map[name := Unknown(Int, 1)], []);
    assert Lookup([Start(f)] + outer, name) == Some(Unknown(Int, 1));
    assert After(r, Start(f), outer) == Start(f).(returned := [Unknown(Int, 1)]);
  }

  // ----- written types -----

  /** The names of types, with the scalar and the array type each of them stands for. */
  const TYPES: map<string, (Type, Type)> := map[
    "qubit" := (Qubit, QubitArray), "bit" := (Bit, BitArray), "bool" := (Bool, BoolArray),
    "int" := (Int, IntArray), "float" := (Float, FloatArray), "axis" := (Axis, Axis)
  ]

  /** A type is refused exactly if its name is unknown or, except for axis, its size is not positive; a size makes it an
      array of as many elements. */
  lemma BuildExactly(w: Written)
    ensures Build(w).Some? <==> w.name in TYPES && (w.size.Some? && w.name != "axis" ==> w.size.value > 0)
    ensures Build(w).Some? ==>
      && Build(w).value.Unknown?
      && Promotion.TypeOf(Build(w).value) == (if w.size.None? then TYPES[w.name].0 else TYPES[w.name].1)
      && SizeOf(Build(w).value) == (if w.name == "axis" then 3 else if w.size.Some? then w.size.value else 1)
  {
  }

  /** Parameter by parameter, if all types can be built. */
  lemma {:induction false} TypesInOrder(params: seq<Declaration>, i: nat)
    requires i < |params| && forall j :: 0 <= j < |params| ==> Build(params[j].typ).Some?
    ensures |TypesOf(params)| == |params| && TypesOf(params)[i] == Promotion.TypeOf(Build(params[i].typ).value)
  {
    var rest := params[1..];
    assert forall j :: 0 <= j < |rest| ==> rest[j] == params[j + 1];
    if rest != [] { TypesInOrder(rest, if i > 0 then i - 1 else 0); }
  }

  // ----- statements without errors -----

  /** Some element is not zero, as a double. */
  predicate SomeNonZero(v: Value) {
    exists i :: 0 <= i < |Elements(v)| && Elements(v)[i] !in {ConstBool(false), ConstInt(0), ConstFloat(0.0)}
  }

  /** An assignment is accepted exactly if the sizes agree, the promotion is one of those between scalars or between
      arrays, and an axis does not get three zeros. */
  lemma AssignsExactly(lhs: Value, rhs: Value, round: Rounding)
    ensures var l, r := Promotion.TypeOf(lhs), Promotion.TypeOf(rhs);
      Assigns(lhs, rhs, round) <==>
        && SizeOf(lhs) == SizeOf(rhs) && (CheckPromote(r, l) || ArrayPromotes(r, SizeOf(rhs), l))
        && (l == Axis && (rhs.ConstBoolArray? || rhs.ConstIntArray? || rhs.ConstFloatArray?) ==> SomeNonZero(rhs))
  {
    PromoteDecided(rhs, Promotion.TypeOf(lhs), round);
    ZeroElements(rhs);
  }

  lemma ZeroElements(v: Value)
    ensures v.ConstBoolArray? || v.ConstIntArray? || v.ConstFloatArray? ==> (AllZero(v) <==> !SomeNonZero(v))
  {
    var es := Elements(v);
    match v
    case ConstBoolArray(bs) => assert forall i :: 0 <= i < |bs| ==> es[i] == ConstBool(bs[i]);
    case ConstIntArray(ns) => assert forall i :: 0 <= i < |ns| ==> es[i] == ConstInt(ns[i]);
    case ConstFloatArray(fs) => assert forall i :: 0 <= i < |fs| ==> es[i] == ConstFloat(fs[i]);
    case _ =>
  }

  /** What a statement has to obey where it stands. */
  predicate Proper(st: Statement, local: Scope, outer: seq<Scope>, round: Rounding) {
    var scopes := [local] + outer;
    match st
    case Declare(d) => Build(d.typ).Some?
    case Initialize(d, rhs) =>
      Evaluate(rhs, scopes).Some? && Build(d.typ).Some?
      && Assigns(Build(d.typ).value, Evaluate(rhs, scopes).value, round)
    case Assign(lhs, rhs) =>
      Evaluate(lhs, scopes).Some? && Evaluate(rhs, scopes).Some? && lhs.Var? && Evaluate(lhs, scopes).value.Unknown?
      && Assigns(Evaluate(lhs, scopes).value, Evaluate(rhs, scopes).value, round)
    case Return(e) => Evaluate(e, scopes).Some?
  }

  lemma ProperSilent(st: Statement, local: Scope, outer: seq<Scope>, round: Rounding)
    ensures StatementErrors(st, local, outer, round) == 0 <==> Proper(st, local, outer, round)
  {
  }

  /** A body is analysed without an error exactly if every statement is proper where it stands. */
  lemma {:induction false} SilentExactly(body: seq<Statement>, local: Scope, outer: seq<Scope>, round: Rounding)
    ensures BlockErrors(body, local, outer, round) == 0 <==>
      forall i :: 0 <= i < |body| ==> Proper(body[i], FrameAt(body, i, local, outer), outer, round)
  {
    if body != [] {
      var next, tail := After(body[0], local, outer), body[1..];
      ProperSilent(body[0], local, outer, round);
      SilentExactly(tail, next, outer, round);
      assert FrameAt(body, 0, local, outer) == local by { assert body[..0] == []; }
      forall i | 0 <= i < |tail| ensures FrameAt(tail, i, next, outer) == FrameAt(body, i + 1, local, outer) {
        assert body[..i + 1][0] == body[0] && body[..i + 1][1..] == tail[..i];
      }
      forall i | 0 < i < |body| ensures
        Proper(body[i], FrameAt(body, i, local, outer), outer, round)
        <==> Proper(tail[i - 1], FrameAt(tail, i - 1, next, outer), outer, round)
      {
        assert body[i] == tail[i - 1];
      }
    }
  }

  /** The functions that are registered, in their order. */
  lemma {:induction false} RegisteredInOrder(fs: seq<Function>, gs: seq<Function>, outer: seq<Scope>, round: Rounding)
    ensures Registered(fs + gs, outer, round) == Registered(fs, outer, round) + Registered(gs, outer, round)
  {
    if fs == [] {
      assert fs + gs == gs && [] + Registered(gs, outer, round) == Registered(gs, outer, round);
    } else {
      assert (fs + gs)[0] == fs[0] && (fs + gs)[1..] == fs[1..] + gs;
      RegisteredInOrder(fs[1..], gs, outer, round);
      var h := if Registers(fs[0], outer, round) then [Signature(fs[0].name, TypesOf(fs[0].params))] else [];
      ConcatAssoc(h, Registered(fs[1..], outer, round), Registered(gs, outer, round));
    }
  }
}
