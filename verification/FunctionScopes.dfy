/** The scope stack of the cQASM 3 analyser: src/v3x/cqasm-analyzer.cpp and the visits of functions in
    src/v3x/AnalyzeTreeGenAstVisitor.cpp. */
module FunctionScopes {
  import opened Wrappers
  import opened Promotion

  /** What stands for a value: a value that needs no name, such as a literal or the result of a call, or a name. */
  datatype FExpr = Lit(v: Value) | Var(name: string)

  /** A type as it is written: its name, and the number of elements of an array. */
  datatype Written = Written(name: string, size: Option<int>)

  datatype Declaration = Declaration(name: string, typ: Written)

  datatype Statement =
    | Declare(decl: Declaration)
    | Initialize(decl: Declaration, rhs: FExpr)
    | Assign(lhs: FExpr, rhs: FExpr)
    | Return(value: FExpr)

  datatype Function =
    Function(name: string, ret: Option<Written>, params: seq<Declaration>, body: seq<Statement>)

  /** A frame: its variables, and the values that the return statements of its block return. */
  datatype Scope = Scope(variables: map<string, Value>, returned: seq<Value>)

  datatype Signature = Signature(name: string, params: seq<Type>)

  const EMPTY: Scope := Scope(map[], [])

  // ----- types and names -----

  function BuildSized(w: Written, scalar: Type, array_: Type): Option<Value> {
    match w.size
    case None => Some(Unknown(scalar, 1))
    case Some(n) => if n > 0 then Some(Unknown(array_, n)) else None
  }

  /** build_semantic_type, giving a variable of the type; None with an error.  An axis may be written with any
      size. */
  function Build(w: Written): Option<Value> {
    if w.name == "qubit" then BuildSized(w, Qubit, QubitArray)
    else if w.name == "bit" then BuildSized(w, Bit, BitArray)
    else if w.name == "axis" then Some(Unknown(Axis, 3))
    else if w.name == "bool" then BuildSized(w, Bool, BoolArray)
    else if w.name == "int" then BuildSized(w, Int, IntArray)
    else if w.name == "float" then BuildSized(w, Float, FloatArray)
    else None
  }

  /** The innermost frame that has the name; the current frame comes first. */
  function Lookup(scopes: seq<Scope>, name: string): Option<Value> {
    if scopes == [] then None
    else if name in scopes[0].variables then Some(scopes[0].variables[name])
    else Lookup(scopes[1..], name)
  }

  /** Frame i is the first, counted from the current one, that has the name. */
  predicate FoundIn(scopes: seq<Scope>, name: string, i: nat) {
    i < |scopes| && name in scopes[i].variables && forall j :: 0 <= j < i ==> name !in scopes[j].variables
  }

  lemma {:induction false} LookupFinds(scopes: seq<Scope>, name: string)
    ensures Lookup(scopes, name).None? <==> forall i :: 0 <= i < |scopes| ==> name !in scopes[i].variables
    ensures forall i: nat :: FoundIn(scopes, name, i) ==> Lookup(scopes, name) == Some(scopes[i].variables[name])
  {
    if scopes != [] {
      LookupFinds(scopes[1..], name);
      forall i: nat | FoundIn(scopes, name, i) ensures Lookup(scopes, name) == Some(scopes[i].variables[name]) {
        if i > 0 {
          assert name !in scopes[0].variables;
          assert FoundIn(scopes[1..], name, i - 1);
        }
      }
      if i :| 0 <= i < |scopes| && name in scopes[i].variables {
        if i > 0 { assert name in scopes[1..][i - 1].variables; }
      }
    }
  }

  function Evaluate(e: FExpr, scopes: seq<Scope>): Option<Value> {
    match e case Lit(v) => Some(v) case Var(n) => Lookup(scopes, n)
  }

  // ----- what statements do to their frame -----

  /** The variable is there afterwards, unless its type cannot be built. */
  function Declared(s: Scope, d: Declaration): Scope {
    match Build(d.typ)
    case None => s
    case Some(v) => s.(variables := s.variables[d.name := v])
  }

  /** A statement with an error that hinders its effect leaves the frame as it is, and the block goes on. */
  function After(st: Statement, local: Scope, outer: seq<Scope>): Scope {
    match st
    case Declare(d) => Declared(local, d)
    case Initialize(d, rhs) => if Evaluate(rhs, [local] + outer).Some? then Declared(local, d) else local
    case Assign(_, _) => local
    case Return(e) =>
      match Evaluate(e, [local] + outer)
      case Some(v) => local.(returned := local.returned + [v])
      case None => local
  }

  function AfterAll(body: seq<Statement>, local: Scope, outer: seq<Scope>): Scope {
    if body == [] then local else AfterAll(body[1..], After(body[0], local, outer), outer)
  }

  function Parameters(params: seq<Declaration>, local: Scope): Scope {
    if params == [] then local else Parameters(params[1..], Declared(local, params[0]))
  }

  /** The types of the parameters that can be built. */
  function TypesOf(params: seq<Declaration>): seq<Type> {
    if params == [] then []
    else (if Build(params[0].typ).Some? then [Build(params[0].typ).value.typ] else []) + TypesOf(params[1..])
  }

  // ----- the errors of statements -----

  /** Only arrays are looked into. */
  predicate AllZero(v: Value) {
    match v
    case ConstBoolArray(bs) => forall i :: 0 <= i < |bs| ==> !bs[i]
    case ConstIntArray(ns) => forall i :: 0 <= i < |ns| ==> ns[i] == 0
    case ConstFloatArray(fs) => forall i :: 0 <= i < |fs| ==> fs[i] == 0.0
    case _ => false
  }

  /** A value may go where another stands: the sizes agree, it can be promoted, and no axis becomes zero. */
  predicate Assigns(lhs: Value, rhs: Value, round: Rounding) {
    && SizeOf(lhs) == SizeOf(rhs) && Promote(rhs, Promotion.TypeOf(lhs), round).Some?
    && !(Promotion.TypeOf(lhs) == Axis && AllZero(rhs))
  }

  function Blame(ok: bool): nat {
    if ok then 0 else 1
  }

  function DeclarationErrors(d: Declaration): nat {
    Blame(Build(d.typ).Some?)
  }

  /** An initialization whose type cannot be built still assigns to whatever its name means then. */
  function StatementErrors(st: Statement, local: Scope, outer: seq<Scope>, round: Rounding): nat {
    match st
    case Declare(d) => DeclarationErrors(d)
    case Initialize(d, rhs) => (
      match Evaluate(rhs, [local] + outer)
      case None => 1
      case Some(r) =>
        var l := Lookup([Declared(local, d)] + outer, d.name);
        DeclarationErrors(d) + Blame(l.Some? && Assigns(l.value, r, round)))
    case Assign(lhs, rhs) =>
      var l, r := Evaluate(lhs, [local] + outer), Evaluate(rhs, [local] + outer);
      Blame(l.Some? && r.Some? && lhs.Var? && l.value.Unknown? && Assigns(l.value, r.value, round))
    case Return(e) => Blame(Evaluate(e, [local] + outer).Some?)
  }

  function BlockErrors(body: seq<Statement>, local: Scope, outer: seq<Scope>, round: Rounding): nat {
    if body == [] then 0
    else
      StatementErrors(body[0], local, outer, round) + BlockErrors(body[1..], After(body[0], local, outer), outer, round)
  }

  function ParameterErrors(params: seq<Declaration>): nat {
    if params == [] then 0 else DeclarationErrors(params[0]) + ParameterErrors(params[1..])
  }

  // ----- what a function needs to be registered -----

  predicate AllPromote(vs: seq<Value>, t: Type, round: Rounding) {
    forall i :: 0 <= i < |vs| ==> Promote(vs[i], t, round).Some?
  }

  /** The return type, if there is one, can be built. */
  predicate Typed(f: Function) {
    f.ret.Some? ==> Build(f.ret.value).Some?
  }

  function Start(f: Function): Scope {
    Parameters(f.params, EMPTY)
  }

  /** Values are returned exactly if there is a return type, and they can be promoted to it. */
  predicate ReturnsMatch(ret: Option<Type>, returned: seq<Value>, round: Rounding) {
    match ret
    case None => returned == []
    case Some(t) => returned != [] && AllPromote(returned, t, round)
  }

  function ReturnType(f: Function): Option<Type>
    requires Typed(f)
  {
    if f.ret.None? then None else Some(Build(f.ret.value).value.typ)
  }

  /** What is not asked for is that the statements are free of errors. */
  predicate Registers(f: Function, outer: seq<Scope>, round: Rounding) {
    Typed(f) && ReturnsMatch(ReturnType(f), AfterAll(f.body, Start(f), outer).returned, round)
  }

  /** A return type that cannot be built is the only error then. */
  function FunctionErrors(f: Function, outer: seq<Scope>, round: Rounding): nat {
    if !Typed(f) then 1
    else
      ParameterErrors(f.params) + BlockErrors(f.body, Start(f), outer, round) + Blame(Registers(f, outer, round))
  }

  function Registered(fs: seq<Function>, outer: seq<Scope>, round: Rounding): seq<Signature> {
    if fs == [] then []
    else
      (if Registers(fs[0], outer, round) then [Signature(fs[0].name, TypesOf(fs[0].params))] else [])
      + Registered(fs[1..], outer, round)
  }

  function ErrorsOf(fs: seq<Function>, outer: seq<Scope>, round: Rounding): nat {
    if fs == [] then 0 else FunctionErrors(fs[0], outer, round) + ErrorsOf(fs[1..], outer, round)
  }

  /** The value that the return statement at place i returns, where it stands. */
  function ReturnedAt(body: seq<Statement>, i: nat, local: Scope, outer: seq<Scope>): Option<Value>
    requires i < |body|
  {
    match body[i]
    case Return(e) => Evaluate(e, [AfterAll(body[..i], local, outer)] + outer)
    case _ => None
  }

  lemma {:induction false} ReturnsCollected(body: seq<Statement>, local: Scope, outer: seq<Scope>, v: Value)
    ensures v in AfterAll(body, local, outer).returned <==>
      v in local.returned || exists i :: 0 <= i < |body| && ReturnedAt(body, i, local, outer) == Some(v)
  {
    if body != [] {
      var next, tail := After(body[0], local, outer), body[1..];
      ReturnsCollected(tail, next, outer, v);
      assert body[..0] == [];
      assert ReturnedAt(body, 0, local, outer) == Some(v) ==> v in next.returned;
      assert v in next.returned ==> v in local.returned || ReturnedAt(body, 0, local, outer) == Some(v);
      forall i | 0 <= i < |tail| ensures ReturnedAt(tail, i, next, outer) == ReturnedAt(body, i + 1, local, outer) {
        assert body[..i + 1][0] == body[0] && body[..i + 1][1..] == tail[..i];
      }
      if i :| 0 <= i < |body| && ReturnedAt(body, i, local, outer) == Some(v) {
        if i > 0 { assert ReturnedAt(tail, i - 1, next, outer) == Some(v); }
      }
    }
  }

  /** Some return statement resolves where it stands. */
  ghost predicate SomeReturns(f: Function, outer: seq<Scope>) {
    exists i :: 0 <= i < |f.body| && ReturnedAt(f.body, i, Start(f), outer).Some?
  }

  /** Every return statement that resolves where it stands has a value that can become a t. */
  ghost predicate AllReturnsFit(f: Function, outer: seq<Scope>, t: Type, round: Rounding) {
    forall i :: 0 <= i < |f.body| && ReturnedAt(f.body, i, Start(f), outer).Some? ==>
      Promote(ReturnedAt(f.body, i, Start(f), outer).value, t, round).Some?
  }

  /** Statement by statement: without a return type no return statement may resolve where it stands; with one,
      some has to, and every one that does has to fit. */
  lemma RegistersByStatement(f: Function, outer: seq<Scope>, round: Rounding)
    requires Typed(f)
    ensures f.ret.None? ==> (Registers(f, outer, round) <==> !SomeReturns(f, outer))
    ensures f.ret.Some? ==> (Registers(f, outer, round) <==>
      SomeReturns(f, outer) && AllReturnsFit(f, outer, ReturnType(f).value, round))
  {
    var body, local := f.body, Start(f);
    var end := AfterAll(body, local, outer).returned;
    ParametersReturnNothing(f.params, EMPTY);
    forall v ensures v in end <==> exists i :: 0 <= i < |body| && ReturnedAt(body, i, local, outer) == Some(v) {
      ReturnsCollected(body, local, outer, v);
    }
    forall i | 0 <= i < |body| && ReturnedAt(body, i, local, outer).Some?
      ensures ReturnedAt(body, i, local, outer).value in end
    {
      assert ReturnedAt(body, i, local, outer) == Some(ReturnedAt(body, i, local, outer).value);
    }
    forall k | 0 <= k < |end| ensures exists i :: 0 <= i < |body| && ReturnedAt(body, i, local, outer) == Some(end[k]) {
      assert end[k] in end;
    }
    assert end == [] <==> !SomeReturns(f, outer) by {
      if end != [] {
        var i :| 0 <= i < |body| && ReturnedAt(body, i, local, outer) == Some(end[0]);
      }
    }
  }

  lemma {:induction false} ParametersReturnNothing(params: seq<Declaration>, local: Scope)
    ensures Parameters(params, local).returned == local.returned
  {
    if params != [] { ParametersReturnNothing(params[1..], Declared(local, params[0])); }
  }

  /** Errors in its statements do not keep a function from being registered: a return statement whose name is
      unknown counts as absent. */
  lemma RegisteredDespiteErrors(x: string, v: Value, round: Rounding)
    requires Promotion.TypeOf(v) == Int
    ensures var f := Function("f", None, [], [Return(Var(x))]);
      Registers(f, [EMPTY], round) && FunctionErrors(f, [EMPTY], round) == 1
    ensures var f := Function("f", Some(Written("int", None)), [], [Return(Var(x)), Return(Lit(v))]);
      Registers(f, [EMPTY], round) && FunctionErrors(f, [EMPTY], round) == 1
  {
    var scopes := [EMPTY] + [EMPTY];
    assert scopes[1..] == [EMPTY] && [EMPTY][1..] == [];
    assert Lookup([EMPTY], x) == Lookup([], x) == None;
    assert Lookup(scopes, x) == None;
    var r, l := Return(Var(x)), Return(Lit(v));
    assert [r][1..] == [] && [r, l][1..] == [l] && [l][1..] == [];
    assert After(r, EMPTY, [EMPTY]) == EMPTY && After(l, EMPTY, [EMPTY]) == Scope(map[], [v]);
    assert AfterAll([r], EMPTY, [EMPTY]) == EMPTY;
    assert AfterAll([r, l], EMPTY, [EMPTY]) == AfterAll([l], EMPTY, [EMPTY]) == Scope(map[], [v]);
    assert BlockErrors([r], EMPTY, [EMPTY], round) == 1;
    assert BlockErrors([l], EMPTY, [EMPTY], round) == 0;
    assert BlockErrors([r, l], EMPTY, [EMPTY], round) == 1;
  }

  /** The converse: without an error every function is registered. */
  lemma {:induction false} SilentRegistered(fs: seq<Function>, outer: seq<Scope>, round: Rounding)
    requires ErrorsOf(fs, outer, round) == 0
    ensures forall i :: 0 <= i < |fs| ==> Registers(fs[i], outer, round)
  {
    if fs != [] {
      SilentRegistered(fs[1..], outer, round);
      forall i | 0 <= i < |fs| ensures Registers(fs[i], outer, round) {
        if i > 0 { assert fs[i] == fs[1..][i - 1]; }
      }
    }
  }

  class Analyzer {
    /** The front is the current scope, the back the global one. */
    var scopes: seq<Scope>
    /** The function table of the global scope. */
    var functions: seq<Signature>
    var errors: nat

    constructor ()
      ensures scopes == [EMPTY] && functions == [] && errors == 0
    {
      scopes, functions, errors := [EMPTY], [], 0;
    }

    method PushScope()
      modifies `scopes
      ensures scopes == [EMPTY] + old(scopes)
    {
      scopes := [EMPTY] + scopes;
    }

    method PopScope()
      requires scopes != []
      modifies `scopes
      ensures scopes == old(scopes)[1..]
    {
      scopes := scopes[1..];
    }

    method ResolveVariable(name: string) returns (v: Option<Value>)
      ensures v == Lookup(scopes, name)
      ensures v.Some? <==> exists i :: 0 <= i < |scopes| && name in scopes[i].variables
      ensures v.Some? ==> exists i: nat :: FoundIn(scopes, name, i) && v.value == scopes[i].variables[name]
    {
      LookupFinds(scopes, name);
      var i := 0;
      while i < |scopes|
        invariant i <= |scopes| && forall j :: 0 <= j < i ==> name !in scopes[j].variables
      {
        if name in scopes[i].variables {
          assert FoundIn(scopes, name, i);
          return Some(scopes[i].variables[name]);
        }
        i := i + 1;
      }
      return None;
    }

    method Report()
      modifies `errors
      ensures errors == old(errors) + 1
    {
      errors := errors + 1;
    }

    /** visit_variable */
    method VisitVariable(d: Declaration)
      requires scopes != []
      modifies this
      ensures scopes == [Declared(old(scopes)[0], d)] + old(scopes)[1..] && functions == old(functions)
      ensures errors == old(errors) + DeclarationErrors(d)
    {
      var v := Build(d.typ);
      if v.None? {
        Report();
      } else {
        scopes := scopes[0 := scopes[0].(variables := scopes[0].variables[d.name := v.value])];
      }
    }

    method VisitExpression(e: FExpr) returns (v: Option<Value>)
      ensures v == Evaluate(e, scopes)
    {
      match e
      case Lit(l) => v := Some(l);
      case Var(n) => v := ResolveVariable(n);
    }

    /** do_assignment; false if the sizes differ, the value cannot be promoted, or an axis would be zero */
    method DoAssignment(lhs: Value, rhs: Value, round: Rounding) returns (ok: bool)
      ensures ok <==> Assigns(lhs, rhs, round)
    {
      if SizeOf(lhs) != SizeOf(rhs) {
        return false;
      }
      if Promote(rhs, Promotion.TypeOf(lhs), round).None? {
        return false;
      }
      ok := !(Promotion.TypeOf(lhs) == Axis && AllZero(rhs));
    }

    method VisitInitialization(d: Declaration, rhs: FExpr, round: Rounding)
      requires scopes != []
      modifies this
      ensures functions == old(functions)
      ensures scopes == [After(Initialize(d, rhs), old(scopes)[0], old(scopes)[1..])] + old(scopes)[1..]
      ensures errors == old(errors) + StatementErrors(Initialize(d, rhs), old(scopes)[0], old(scopes)[1..], round)
    {
      assert scopes == [scopes[0]] + scopes[1..];
      // the right-hand side comes first, so that it cannot mean the new variable
      var r := VisitExpression(rhs);
      if r.None? {
        Report();
        return;
      }
      VisitVariable(d);
      var l := ResolveVariable(d.name);
      var done := false;
      if l.Some? {
        done := DoAssignment(l.value, r.value, round);
      }
      if !done { Report(); }
    }

    method VisitAssignment(lhs: FExpr, rhs: FExpr, round: Rounding)
      requires scopes != []
      modifies `errors
      ensures errors == old(errors) + StatementErrors(Assign(lhs, rhs), scopes[0], scopes[1..], round)
    {
      assert scopes == [scopes[0]] + scopes[1..];
      var l := VisitExpression(lhs);
      var r := VisitExpression(rhs);
      var done := false;
      if l.Some? && r.Some? && lhs.Var? && l.value.Unknown? {
        done := DoAssignment(l.value, r.value, round);
      }
      if !done { Report(); }
    }

    /** visit_return_statement; false if its error leaves the visit */
    method VisitReturn(e: FExpr) returns (ok: bool)
      requires scopes != []
      modifies `scopes
      ensures ok <==> Evaluate(e, old(scopes)).Some?
      ensures scopes == [After(Return(e), old(scopes)[0], old(scopes)[1..])] + old(scopes)[1..]
    {
      assert scopes == [scopes[0]] + scopes[1..];
      var v := VisitExpression(e);
      ok := v.Some?;
      if ok {
        scopes := scopes[0 := scopes[0].(returned := scopes[0].returned + [v.value])];
      }
    }

    /** One statement, with the errors that visit_block catches: one whose effect fails leaves the frame as it
        is. */
    method VisitStatement(st: Statement, round: Rounding)
      requires scopes != []
      modifies this
      ensures functions == old(functions)
      ensures scopes == [After(st, old(scopes)[0], old(scopes)[1..])] + old(scopes)[1..]
      ensures errors == old(errors) + StatementErrors(st, old(scopes)[0], old(scopes)[1..], round)
    {
      assert scopes == [scopes[0]] + scopes[1..];
      match st {
        case Declare(d) => VisitVariable(d);
        case Initialize(d, rhs) => VisitInitialization(d, rhs, round);
        case Assign(lhs, rhs) => VisitAssignment(lhs, rhs, round);
        case Return(e) =>
          var ok := VisitReturn(e);
          if !ok { Report(); }
      }
    }

    /** visit_block: every statement is visited, whatever the errors of those before it. */
    method VisitBlock(body: seq<Statement>, round: Rounding)
      requires scopes != []
      modifies this
      ensures scopes == [AfterAll(body, old(scopes)[0], old(scopes)[1..])] + old(scopes)[1..]
      ensures errors == old(errors) + BlockErrors(body, old(scopes)[0], old(scopes)[1..], round)
      ensures functions == old(functions)
    {
      ghost var outer, local := scopes[1..], scopes[0];
      var i := 0;
      while i < |body|
        invariant i <= |body| && scopes != [] && scopes[1..] == outer && functions == old(functions)
        invariant AfterAll(body, local, outer) == AfterAll(body[i..], scopes[0], outer)
        invariant errors + BlockErrors(body[i..], scopes[0], outer, round)
          == old(errors) + BlockErrors(body, local, outer, round)
      {
        assert body[i..][0] == body[i] && body[i..][1..] == body[i + 1..];
        VisitStatement(body[i], round);
        i := i + 1;
      }
      assert scopes == [scopes[0]] + scopes[1..];
    }

    method VisitParameters(params: seq<Declaration>) returns (types: seq<Type>)
      requires scopes != []
      modifies this
      ensures scopes == [Parameters(params, old(scopes)[0])] + old(scopes)[1..] && types == TypesOf(params)
      ensures errors == old(errors) + ParameterErrors(params) && functions == old(functions)
    {
      types := [];
      var i := 0;
      assert scopes == [scopes[0]] + scopes[1..];
      while i < |params|
        invariant i <= |params| && scopes != [] && scopes[1..] == old(scopes)[1..] && functions == old(functions)
        invariant Parameters(params, old(scopes)[0]) == Parameters(params[i..], scopes[0])
        invariant types + TypesOf(params[i..]) == TypesOf(params)
        invariant errors + ParameterErrors(params[i..]) == old(errors) + ParameterErrors(params)
      {
        assert params[i..][0] == params[i] && params[i..][1..] == params[i + 1..];
        var v := Build(params[i].typ);
        var found := if v.Some? then [v.value.typ] else [];
        ConcatAssoc(types, found, TypesOf(params[i + 1..]));
        VisitVariable(params[i]);
        types := types + found;
        i := i + 1;
      }
      assert types + [] == types && scopes == [scopes[0]] + scopes[1..];
    }

    /** The checks of the return statements against the return type. */
    method CheckReturns(ret: Option<Type>, round: Rounding) returns (ok: bool)
      requires scopes != []
      ensures ok <==> ReturnsMatch(ret, scopes[0].returned, round)
    {
      var vs := scopes[0].returned;
      if ret.None? {
        return vs == [];
      }
      var i := 0;
      while i < |vs|
        invariant i <= |vs| && AllPromote(vs[..i], ret.value, round)
      {
        assert vs[..i + 1] == vs[..i] + [vs[i]];
        if Promote(vs[i], ret.value, round).None? {
          return false;
        }
        i := i + 1;
      }
      assert vs[..i] == vs;
      return vs != [];
    }

    /** The parameters, the body and the return statements, in a frame of their own. */
    method VisitSignature(f: Function, round: Rounding) returns (ok: bool, types: seq<Type>)
      requires Typed(f)
      modifies this
      ensures scopes == [AfterAll(f.body, Start(f), old(scopes))] + old(scopes) && functions == old(functions)
      ensures errors == old(errors) + ParameterErrors(f.params) + BlockErrors(f.body, Start(f), old(scopes), round)
      ensures (ok <==> Registers(f, old(scopes), round)) && types == TypesOf(f.params)
    {
      PushScope();
      assert scopes[1..] == old(scopes);
      types := VisitParameters(f.params);
      assert scopes[1..] == old(scopes);
      VisitBlock(f.body, round);
      ok := CheckReturns(ReturnType(f), round);
    }

    /** visit_function.  The scope stack ends as it was, whatever fails; the errors are those of the parts, and
        one more exactly if the function is not registered. */
    method VisitFunction(f: Function, round: Rounding)
      modifies this
      ensures scopes == old(scopes)
      ensures functions == old(functions) + Registered([f], old(scopes), round)
      ensures functions == old(functions)
        || (Registers(f, old(scopes), round) && functions == old(functions) + [Signature(f.name, TypesOf(f.params))])
      ensures errors == old(errors) + FunctionErrors(f, old(scopes), round)
    {
      assert [f][1..] == [] && functions + [] == functions;
      if !Typed(f) {
        PushScope();
        Report();
        PopScope();
        return;
      }
      var ok, types := VisitSignature(f, round);
      if ok {
        functions := functions + [Signature(f.name, types)];
      } else {
        Report();
      }
      PopScope();
    }

    /** Any number of functions: no parameter or local variable is left behind, the functions registered are the
        sound ones, in order, and the errors are those of each alone. */
    method VisitFunctions(fs: seq<Function>, round: Rounding)
      modifies this
      ensures scopes == old(scopes)
      ensures functions == old(functions) + Registered(fs, old(scopes), round)
      ensures errors == old(errors) + ErrorsOf(fs, old(scopes), round)
    {
      var i := 0;
      while i < |fs|
        invariant i <= |fs| && scopes == old(scopes)
        invariant functions + Registered(fs[i..], scopes, round) == old(functions) + Registered(fs, scopes, round)
        invariant errors + ErrorsOf(fs[i..], scopes, round) == old(errors) + ErrorsOf(fs, scopes, round)
      {
        assert fs[i..][0] == fs[i] && fs[i..][1..] == fs[i + 1..] && [fs[i]][1..] == [];
        ConcatAssoc(functions, Registered([fs[i]], scopes, round), Registered(fs[i + 1..], scopes, round));
        assert Registered([fs[i]], scopes, round) + Registered(fs[i + 1..], scopes, round)
            == Registered(fs[i..], scopes, round);
        VisitFunction(fs[i], round);
        i := i + 1;
      }
      assert functions + [] == functions;
    }
  }
}
