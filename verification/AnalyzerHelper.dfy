/** src/v1x/cqasm-analyzer-helper.cpp: the statements of a cQASM 1.2 program. */
module AnalyzerHelpers {
  import opened Wrappers
  import opened SemanticTree
  import opened Pruning
  import opened Analysis

  /** A scope is a copy of the one around it; the global scope has no block of its own. */
  datatype Scope = Scope(mappings: Env, block: Option<Block>, withinLoop: bool)

  /** The fields of the helper, as a value. */
  datatype State = State(scopes: seq<Scope>, subcircuits: seq<Sub>, gotos: seq<string>, errors: nat) {
    predicate Valid() {
      |scopes| >= 1 && scopes[0].block.None? && forall k :: 1 <= k < |scopes| ==> scopes[k].block.Some?
    }

    function Top(): Scope
      requires Valid()
    {
      scopes[|scopes| - 1]
    }

    /** The block being built: that of the current scope, or else the subcircuits. */
    function View(): seq<Sub>
      requires Valid()
    {
      if Top().block.Some? then [Sub("", 1, Top().block.value)] else subcircuits
    }

    predicate Global() { |scopes| == 1 }
  }

  /** From s0 to s1 nothing changes but the current block, the subcircuits if that is at the top, the gotos and
      the count of errors. */
  ghost predicate Framed(s0: State, s1: State) {
    && s0.Valid() && s1.Valid()
    && |s1.scopes| == |s0.scopes| && s1.scopes[..|s0.scopes| - 1] == s0.scopes[..|s0.scopes| - 1]
    && s1.Top().withinLoop == s0.Top().withinLoop && s1.errors >= s0.errors
    && (!s0.Global() ==> s1.subcircuits == s0.subcircuits)
  }

  /** The effect of a statement. */
  ghost predicate Effect(s0: State, s1: State, s: AStmt) {
    && Framed(s0, s1) && s1.Top().mappings == EnvAfter(s, s0.Top().mappings)
    && (s1.errors == s0.errors <==> StmtOk(s, s0.Top().mappings, s0.Top().withinLoop, s0.Global()))
    && (s1.errors == s0.errors ==>
      s1.View() == Place(true, s, s0.Top().mappings, s0.View()) && s1.gotos == s0.gotos + StmtTargets(s))
  }

  /** The effect of a list of statements. */
  ghost predicate Effects(s0: State, s1: State, b: ABlock) {
    && Framed(s0, s1) && s1.Top().mappings == EnvEnd(b, s0.Top().mappings)
    && (s1.errors == s0.errors <==> BlockOk(b, s0.Top().mappings, s0.Top().withinLoop, s0.Global()))
    && (s1.errors == s0.errors ==>
      s1.View() == Assemble(true, b, s0.Top().mappings, s0.View()) && s1.gotos == s0.gotos + Targets(b))
  }

  /** The effect of a subblock, whose statements become out. */
  ghost predicate SubEffect(s0: State, s1: State, b: ABlock, isLoop: bool, out: Block) {
    && s0.Valid() && s1.Valid() && s1.scopes == s0.scopes && s1.subcircuits == s0.subcircuits && s1.errors >= s0.errors
    && (s1.errors == s0.errors <==> BlockOk(b, s0.Top().mappings, s0.Top().withinLoop || isLoop, false))
    && (s1.errors == s0.errors ==> out == Prune(Elab(b, s0.Top().mappings)) && s1.gotos == s0.gotos + Targets(b))
  }

  function NodeBlock(node: Option<Stmt>): Block {
    match node case None => [] case Some(s) => [s]
  }

  /** The effect of a structured statement that has not been added to the current block yet. */
  ghost predicate NodeEffect(s0: State, s1: State, s: AStmt, ok: bool, node: Option<Stmt>) {
    && Framed(s0, s1) && s1.Top().mappings == s0.Top().mappings
    && (ok && s1.errors == s0.errors <==> StmtOk(s, s0.Top().mappings, s0.Top().withinLoop, s0.Global()))
    && (ok && s1.errors == s0.errors ==>
      && AddTo(s1.View(), NodeBlock(node)) == AddTo(s0.View(), Prune(ElabStmt(s, s0.Top().mappings)))
      && s1.gotos == s0.gotos + StmtTargets(s))
  }

  /** The state in which the statements of a subblock are analysed. */
  ghost predicate Entered(s0: State, s1: State, isLoop: bool) {
    && s0.Valid() && s1.Valid() && s1.subcircuits == s0.subcircuits && s1.gotos == s0.gotos && s1.errors == s0.errors
    && s1.scopes == s0.scopes + [Scope(s0.Top().mappings, Some([]), s0.Top().withinLoop || isLoop)]
  }

  lemma SubblockDone(s0: State, s1: State, s2: State, b: ABlock, isLoop: bool)
    requires Entered(s0, s1, isLoop) && Effects(s1, s2, b)
    ensures |s2.scopes| == |s0.scopes| + 1 && s2.scopes[|s0.scopes|].block.Some?
    ensures var k := |s0.scopes|;
      SubEffect(s0, s2.(scopes := s2.scopes[..k]), b, isLoop, s2.scopes[k].block.value)
  {
    var k := |s0.scopes|;
    assert s1.scopes[..k] == s0.scopes;
    if s2.errors == s0.errors {
      AssembleBlock(b, s0.Top().mappings, s1.Top().withinLoop, [Sub("", 1, [])]);
      AddToEmpty(Prune(Elab(b, s0.Top().mappings)));
    }
  }

  lemma FramedTrans(s0: State, s1: State, s2: State)
    requires Framed(s0, s1) && Framed(s1, s2)
    ensures Framed(s0, s2)
  {
  }

  /** The first statement, then the rest. */
  lemma EffectsCons(s0: State, s1: State, s2: State, b: ABlock)
    requires b != [] && Effect(s0, s1, b[0]) && Effects(s1, s2, b[1..])
    ensures Effects(s0, s2, b)
  {
    FramedTrans(s0, s1, s2);
    ConcatAssoc(s0.gotos, StmtTargets(b[0]), Targets(b[1..]));
  }

  /** How far the analysis of b has come when rest remains. */
  ghost predicate Remaining(s0: State, s: State, b: ABlock, rest: ABlock) {
    Framed(s0, s) && forall s2 :: Effects(s, s2, rest) ==> Effects(s0, s2, b)
  }

  lemma RemainingStep(s0: State, s: State, s1: State, b: ABlock, rest: ABlock)
    requires rest != [] && Remaining(s0, s, b, rest) && Effect(s, s1, rest[0])
    ensures Remaining(s0, s1, b, rest[1..])
  {
    FramedTrans(s0, s, s1);
    forall s2 | Effects(s1, s2, rest[1..]) ensures Effects(s0, s2, b) {
      EffectsCons(s, s1, s2, rest);
    }
  }

  lemma EffectsNil(s: State)
    requires s.Valid()
    ensures Effects(s, s, [])
  {
    assert s.gotos + [] == s.gotos;
  }

  /** What each expression of an assignment resolves to stands on its side. */
  predicate AssignBuilt(a: Assign, env: Env, action: Action) {
    action.Set? && Resolve(a.lhs, env) == Some(action.lhs) && Resolve(a.rhs, env) == Some(action.rhs)
  }

  predicate OptAssignBuilt(a: Option<Assign>, env: Env, action: Option<Action>) {
    (a.Some? <==> action.Some?) && (a.Some? ==> AssignBuilt(a.value, env, action.value))
  }

  /** An empty subcircuit that runs as often as its count, which is positive, or once. */
  predicate SubBuilt(name: string, iterations: Option<Expr>, env: Env, sub: Sub) {
    && sub.name == name && sub.body == [] && sub.iterations >= 1
    && (if iterations.Some? then Resolve(iterations.value, env) == Some(ConstInt(sub.iterations))
      else sub.iterations == 1)
  }

  predicate AllBuilt(es: seq<Expr>, env: Env, vs: seq<Value>) {
    |vs| == |es| && forall k :: 0 <= k < |es| ==> Resolve(es[k], env) == Some(vs[k])
  }

  /** Every operand and the condition stands for what its expression resolves to, each in its place. */
  predicate InsnBuilt(i: AInsn, env: Env, n: Insn) {
    && (if i.cond.Some? then Resolve(i.cond.value, env) == Some(n.cond) else n.cond == TRUE)
    && match i
      case AGate(op, es, _) =>
        n.action.Gate? && n.action.op == op && AllBuilt(es, env, n.action.operands)
      case ASet(a, _) => AssignBuilt(a, env, n.action)
      case AGoto(t, _) => n.action == Goto(t)
  }

  lemma {:induction false} ValsResolve(es: seq<Expr>, env: Env)
    requires OperandsOk(es, env)
    ensures AllBuilt(es, env, Vals(es, env))
  {
    if es != [] {
      assert OperandsOk(es[1..], env) by {
        forall k | 0 <= k < |es[1..]| ensures Resolve(es[1..][k], env).Some? { assert Resolve(es[k + 1], env).Some?; }
      }
      ValsResolve(es[1..], env);
      forall k | 0 < k < |es| ensures es[k] == es[1..][k - 1] {}
    }
  }

  class AnalyzerHelper {
    var scopes: seq<Scope>
    var subcircuits: seq<Sub>
    var gotos: seq<string>
    var errors: nat

    constructor (mappings: Env)
      ensures Now() == State([Scope(mappings, None, false)], [], [], 0)
    {
      scopes, subcircuits, gotos, errors := [Scope(mappings, None, false)], [], [], 0;
    }

    ghost function Now(): State
      reads this
    {
      State(scopes, subcircuits, gotos, errors)
    }

    ghost predicate Valid()
      reads this
    {
      Now().Valid()
    }

    /** get_current_scope */
    function CurrentScope(): Scope
      reads this
      requires |scopes| > 0
    {
      scopes[|scopes| - 1]
    }

    method Error()
      requires Valid()
      modifies `errors
      ensures Now() == old(Now()).(errors := old(errors) + 1)
    {
      errors := errors + 1;
    }

    /** add_to_current_block, get_current_block and get_current_subcircuit */
    method AddToCurrentBlock(s: Stmt)
      requires Valid()
      modifies this
      ensures Framed(old(Now()), Now()) && Now().Top().mappings == old(Now().Top().mappings)
      ensures Now().View() == AddTo(old(Now().View()), [s]) && errors == old(errors) && gotos == old(gotos)
    {
      var k := |scopes| - 1;
      if scopes[k].block.Some? {
        scopes := scopes[k := scopes[k].(block := Some(scopes[k].block.value + [s]))];
      } else {
        if subcircuits == [] {
          subcircuits := [Sub("", 1, [])];
          assert [] + [s] == [s];
        }
        var last := |subcircuits| - 1;
        subcircuits := subcircuits[last := subcircuits[last].(body := subcircuits[last].body + [s])];
      }
    }

    /** The statements of a block that takes the place of its statement. */
    method AddAll(b: Block)
      requires Valid()
      modifies this
      ensures Framed(old(Now()), Now()) && Now().Top().mappings == old(Now().Top().mappings)
      ensures Now().View() == AddTo(old(Now().View()), b) && errors == old(errors) && gotos == old(gotos)
    {
      var i := 0;
      while i < |b|
        invariant i <= |b| && Framed(old(Now()), Now()) && Now().Top().mappings == old(Now().Top().mappings)
        invariant Now().View() == AddTo(old(Now().View()), b[..i]) && errors == old(errors) && gotos == old(gotos)
      {
        ghost var v := Now().View();
        AddToCurrentBlock(b[i]);
        AddToAddTo(old(Now().View()), b[..i], [b[i]]);
        assert b[..i + 1] == b[..i] + [b[i]];
        i := i + 1;
      }
      assert b[..i] == b;
    }

    /** analyze_expression; None for a name that does not resolve */
    method AnalyzeExpression(e: Expr) returns (v: Option<Value>)
      requires Valid()
      ensures v == Resolve(e, Now().Top().mappings)
    {
      match e
      case Lit(l) => v := Some(l);
      case Name(n) =>
        var m := CurrentScope().mappings;
        v := if Lower(n) in m then Some(m[Lower(n)]) else None;
    }

    /** An expression promoted to a boolean. */
    method AnalyzeCondition(e: Expr) returns (v: Option<Value>)
      requires Valid()
      ensures v == if CondOk(e, Now().Top().mappings) then Some(Val(e, Now().Top().mappings)) else None
    {
      v := AnalyzeExpression(e);
      if v.Some? && !IsBool(v.value) { v := None; }
    }

    /** analyze_as_const_int */
    method AnalyzeAsConstInt(e: Expr) returns (n: Option<int>)
      requires Valid()
      ensures n == if IntOk(e, Now().Top().mappings) then Some(Val(e, Now().Top().mappings).n) else None
    {
      var v := AnalyzeExpression(e);
      n := if v.Some? && v.value.ConstInt? then Some(v.value.n) else None;
    }

    /** analyze_set_instruction_operands */
    method AnalyzeAssignment(a: Assign) returns (r: Option<Action>)
      requires Valid()
      ensures r == if AssignOk(a, Now().Top().mappings) then Some(Assignment(a, Now().Top().mappings)) else None
      ensures r.Some? ==> AssignBuilt(a, Now().Top().mappings, r.value)
    {
      var lhs := AnalyzeExpression(a.lhs);
      var rhs := AnalyzeExpression(a.rhs);
      if lhs.None? || rhs.None? || !lhs.value.Dynamic? || !lhs.value.assignable
        || IsBool(lhs.value) != IsBool(rhs.value) {
        return None;
      }
      return Some(Set(lhs.value, rhs.value));
    }

    // ----- instructions -----

    /** The operand list of an instruction. */
    method AnalyzeOperands(operands: seq<Expr>) returns (vs: Option<seq<Value>>)
      requires Valid()
      ensures vs ==
        if OperandsOk(operands, Now().Top().mappings) then Some(Vals(operands, Now().Top().mappings)) else None
      ensures vs.Some? ==> AllBuilt(operands, Now().Top().mappings, vs.value)
    {
      ghost var env := Now().Top().mappings;
      var acc := [];
      var i := 0;
      while i < |operands|
        invariant i <= |operands| && OperandsOk(operands[..i], env)
        invariant Vals(operands, env) == acc + Vals(operands[i..], env)
      {
        var v := AnalyzeExpression(operands[i]);
        if v.None? { return None; }
        assert operands[i..][0] == operands[i] && operands[i..][1..] == operands[i + 1..];
        assert operands[..i + 1] == operands[..i] + [operands[i]];
        assert acc + ([v.value] + Vals(operands[i + 1..], env)) == (acc + [v.value]) + Vals(operands[i + 1..], env);
        acc := acc + [v.value];
        i := i + 1;
      }
      assert operands[..i] == operands && acc + [] == acc;
      ValsResolve(operands, env);
      return Some(acc);
    }

    /** analyze_instruction, analyze_set_instruction and analyze_goto_instruction: None with an error, or without
        one if the condition is constant false */
    method AnalyzeInstruction(i: AInsn) returns (node: Option<Insn>)
      requires Valid()
      modifies `errors, `gotos
      ensures !InsnOk(i, Now().Top().mappings) ==> node == None
      ensures errors == old(errors) + (if InsnOk(i, Now().Top().mappings) then 0 else 1)
      ensures gotos == old(gotos) + InsnTargets([i])
      ensures node.Some? ==> InsnBuilt(i, Now().Top().mappings, node.value)
      ensures InsnOk(i, Now().Top().mappings) ==>
        node == (var n := ElabInsn(i, Now().Top().mappings); if n.cond == FALSE then None else Some(n))
    {
      var action: Option<Action>;
      var condExpr: Option<Expr>;
      match i {
        case AGate(op, operands, c) =>
          var vs := AnalyzeOperands(operands);
          action := if vs.Some? then Some(Gate(op, vs.value)) else None;
          condExpr := c;
        case ASet(a, c) =>
          action := AnalyzeAssignment(a);
          condExpr := c;
        case AGoto(t, c) =>
          action := Some(Goto(t));
          gotos := gotos + [t];
          condExpr := c;
      }
      assert [i][1..] == [];
      var cond := Some(TRUE);
      if condExpr.Some? {
        cond := AnalyzeCondition(condExpr.value);
      }
      if action.None? || cond.None? {
        Error();
        return None;
      }
      if cond.value == FALSE {
        return None;
      }
      return Some(Insn(action.value, cond.value));
    }

    /** The instructions of a bundle. */
    method AnalyzeItems(insns: seq<AInsn>) returns (items: seq<Insn>)
      requires Valid()
      modifies `errors, `gotos
      ensures errors >= old(errors) && (errors == old(errors) <==> InsnsOk(insns, Now().Top().mappings))
      ensures errors == old(errors) ==> items == Live(ElabInsns(insns, Now().Top().mappings))
      ensures gotos == old(gotos) + InsnTargets(insns)
    {
      ghost var env, gotos0 := Now().Top().mappings, gotos;
      ghost var n := 0;
      items := [];
      var i := 0;
      ItemsStart(insns, env, gotos);
      while i < |insns|
        invariant i <= |insns| && errors == old(errors) + n
        invariant ItemsLeft(insns, env, insns[i..], items, n, gotos0, gotos)
      {
        ItemsStep(insns, env, i, items, n, gotos0, gotos);
        n := if InsnOk(insns[i], env) then n else n + 1;
        var node := AnalyzeInstruction(insns[i]);
        if node.Some? { items := items + [node.value]; }
        i := i + 1;
      }
      ItemsEnd(insns, env, items, n, gotos0, gotos);
    }

    /** analyze_bundle_ext */
    method AnalyzeBundle(insns: seq<AInsn>)
      requires Valid()
      modifies this
      ensures Effect(old(Now()), Now(), ABundle(insns))
    {
      ghost var s0 := Now();
      var items := AnalyzeItems(insns);
      ghost var s1 := Now();
      // if all conditions are constant false the bundle is removed
      if items != [] {
        AddToCurrentBlock(Bundle(items));
      }
      BundleEffect(s0, s1, Now(), insns, items);
    }

    // ----- statements -----

    /** analyze_mapping */
    method AnalyzeMapping(name: string, e: Expr)
      requires Valid()
      modifies this
      ensures Effect(old(Now()), Now(), AMapping(name, e))
    {
      var v := AnalyzeExpression(e);
      assert gotos + [] == gotos;
      if v.None? {
        Error();
        return;
      }
      var k := |scopes| - 1;
      scopes := scopes[k := scopes[k].(mappings := scopes[k].mappings[Lower(name) := v.value])];
    }

    /** analyze_subcircuit */
    method AnalyzeSubcircuit(name: string, iterations: Option<Expr>)
      requires Valid()
      modifies this
      ensures Effect(old(Now()), Now(), ASubcircuit(name, iterations))
      ensures errors > old(errors) ==> subcircuits == old(subcircuits)
      ensures errors == old(errors) ==>
        && |subcircuits| == |old(subcircuits)| + 1 && subcircuits[..|old(subcircuits)|] == old(subcircuits)
        && SubBuilt(name, iterations, Now().Top().mappings, subcircuits[|old(subcircuits)|])
    {
      assert gotos + [] == gotos;
      if |scopes| > 1 {
        Error();
        return;
      }
      var n := 1;
      if iterations.Some? {
        var v := AnalyzeAsConstInt(iterations.value);
        if v.None? || v.value < 1 {
          Error();
          return;
        }
        n := v.value;
      }
      subcircuits := subcircuits + [Sub(name, n, [])];
    }

    /** analyze_statements */
    method AnalyzeStatements(b: ABlock)
      requires Valid()
      modifies this
      ensures Effects(old(Now()), Now(), b)
      decreases b, 0
    {
      ghost var s0 := Now();
      var i := 0;
      assert b[0..] == b;
      while i < |b|
        invariant i <= |b| && Valid() && Remaining(s0, Now(), b, b[i..])
      {
        ghost var s := Now();
        assert b[i..][0] == b[i] && b[i..][1..] == b[i + 1..];
        match b[i] {
          case ABundle(insns) => AnalyzeBundle(insns);
          case AMapping(name, e) => AnalyzeMapping(name, e);
          case ASubcircuit(name, n) => AnalyzeSubcircuit(name, n);
          case _ => AnalyzeStructured(b[i]);
        }
        RemainingStep(s0, s, Now(), b, b[i..]);
        i := i + 1;
      }
      EffectsNil(Now());
    }

    /** analyze_subblock */
    method AnalyzeSubblock(b: ABlock, isLoop: bool) returns (block: Block)
      requires Valid()
      modifies this
      ensures SubEffect(old(Now()), Now(), b, isLoop, block)
      decreases b, 1
    {
      ghost var s0 := Now();
      scopes := scopes + [CurrentScope()];
      var k := |scopes| - 1;
      scopes := scopes[k := scopes[k].(block := Some([]), withinLoop := scopes[k].withinLoop || isLoop)];
      ghost var s1 := Now();
      assert s1.scopes == s0.scopes + [Scope(s0.Top().mappings, Some([]), s0.Top().withinLoop || isLoop)];
      AnalyzeStatements(b);
      block := CurrentScope().block.value;
      SubblockDone(s0, s1, Now(), b, isLoop);
      scopes := scopes[..|scopes| - 1];
    }

    predicate Structured(s: AStmt) {
      !s.ABundle? && !s.AMapping? && !s.ASubcircuit?
    }

    /** analyze_structured */
    method AnalyzeStructured(s: AStmt)
      requires Valid() && Structured(s)
      modifies this
      ensures Effect(old(Now()), Now(), s)
      decreases s, 1
    {
      var node, ok;
      match s {
        case AIfElse(_, _) => node, ok := AnalyzeIfElse(s);
        case AFor(_, _, _, _) => node, ok := AnalyzeForLoop(s);
        case AForeach(_, _, _, _) => node, ok := AnalyzeForeachLoop(s);
        case AWhile(_, _) => node, ok := AnalyzeWhileLoop(s);
        case ARepeatUntil(_, _) => node, ok := AnalyzeRepeatUntilLoop(s);
        case ABreak =>
          node, ok := Some(Break), CurrentScope().withinLoop;
          JumpEffect(Now(), s, Break);
        case AContinue =>
          node, ok := Some(Continue), CurrentScope().withinLoop;
          JumpEffect(Now(), s, Continue);
      }
      ghost var s1 := Now();
      if !ok {
        Error();
      } else if node.Some? {
        AddToCurrentBlock(node.value);
      }
      NodeAdded(old(Now()), s1, Now(), s, ok, node);
    }

    /** The first loop of analyze_if_else: conditions and bodies. */
    method AnalyzeBranches(all: seq<ABranch>) returns (branches: seq<Branch>, ok: bool)
      requires Valid()
      modifies this
      ensures Valid() && scopes == old(scopes) && subcircuits == old(subcircuits) && errors >= old(errors)
      ensures ok && errors == old(errors) <==> BranchesOk(all, old(Now().Top().mappings), old(Now().Top().withinLoop))
      ensures ok && errors == old(errors) ==>
        && branches == PruneBodies(ElabBranches(all, old(Now().Top().mappings)))
        && gotos == old(gotos) + BranchTargets(all)
      decreases all, 2
    {
      ghost var s0, env, inLoop := Now(), Now().Top().mappings, Now().Top().withinLoop;
      branches := [];
      var i := 0;
      assert all[0..] == all && [] + PruneBodies(ElabBranches(all, env)) == PruneBodies(ElabBranches(all, env));
      while i < |all|
        invariant i <= |all| && scopes == s0.scopes && subcircuits == s0.subcircuits && errors >= s0.errors
        invariant errors == s0.errors ==> (BranchesOk(all, env, inLoop) <==> BranchesOk(all[i..], env, inLoop))
        invariant errors > s0.errors ==> !BranchesOk(all, env, inLoop)
        invariant errors == s0.errors ==>
          PruneBodies(ElabBranches(all, env)) == branches + PruneBodies(ElabBranches(all[i..], env))
        invariant errors == s0.errors ==> s0.gotos + BranchTargets(all) == gotos + BranchTargets(all[i..])
      {
        assert all[i..][0] == all[i] && all[i..][1..] == all[i + 1..];
        BranchesCons(all[i..], env, branches, gotos);
        var cond := AnalyzeCondition(all[i].cond);
        if cond.None? {
          return branches, false;
        }
        var body := AnalyzeSubblock(all[i].body, false);
        branches := branches + [Branch(cond.value, body)];
        i := i + 1;
      }
      ok := true;
      assert all[i..] == [] && branches + [] == branches && gotos + [] == gotos;
    }

    method AnalyzeOtherwise(e: AElse) returns (otherwise: Else)
      requires Valid()
      modifies this
      ensures Valid() && scopes == old(scopes) && subcircuits == old(subcircuits) && errors >= old(errors)
      ensures errors == old(errors) <==>
        (e.AElse? ==> BlockOk(e.block, old(Now().Top().mappings), old(Now().Top().withinLoop), false))
      ensures errors == old(errors) ==>
        otherwise == PruneElse(ElabElse(e, old(Now().Top().mappings))) && gotos == old(gotos) + ElseTargets(e)
      decreases e, 2
    {
      otherwise := NoElse;
      if e.AElse? {
        var block := AnalyzeSubblock(e.block, false);
        otherwise := Else(block);
      } else {
        assert gotos + [] == gotos;
      }
    }

    /** The loop of analyze_if_else that removes the branches which are never taken. */
    method RemoveConstants(branches0: seq<Branch>, otherwise0: Else) returns (branches: seq<Branch>, otherwise: Else)
      ensures branches == Kept(branches0) && otherwise == Final(branches0, otherwise0)
    {
      branches, otherwise := branches0, otherwise0;
      var idx := 0;
      while idx < |branches|
        invariant idx <= |branches|
        invariant Kept(branches0) == branches[..idx] + Kept(branches[idx..])
        invariant Final(branches0, otherwise0) == Final(branches[idx..], otherwise)
        decreases |branches| - idx
      {
        RemovalStep(branches, idx, otherwise);
        if branches[idx].cond.ConstBool? {
          if branches[idx].cond.b {
            otherwise := Else(branches[idx].body);
            branches := branches[..idx];
          } else {
            branches := branches[..idx] + branches[idx + 1..];
          }
        } else {
          idx := idx + 1;
        }
      }
      assert branches[..idx] + [] == branches;
    }

    /** The end of analyze_if_else: the if-else without the branches that are never taken, or the statements of the
        only block that can run. */
    method FinishIfElse(branches0: seq<Branch>, otherwise0: Else) returns (node: Option<Stmt>)
      requires Valid()
      modifies this
      ensures Framed(old(Now()), Now()) && Now().Top().mappings == old(Now().Top().mappings)
      ensures errors == old(errors) && gotos == old(gotos)
      ensures AddTo(Now().View(), NodeBlock(node)) == AddTo(old(Now().View()), PruneIf(branches0, otherwise0))
    {
      var branches, otherwise := RemoveConstants(branches0, otherwise0);
      if branches != [] {
        return Some(IfElse(branches, otherwise));
      }
      if otherwise.Else? {
        AddAll(otherwise.block);
      }
      node := None;
    }

    /** analyze_if_else */
    method AnalyzeIfElse(s: AStmt) returns (node: Option<Stmt>, ok: bool)
      requires Valid() && s.AIfElse?
      modifies this
      ensures NodeEffect(old(Now()), Now(), s, ok, node)
      decreases s, 0
    {
      ghost var s0 := Now();
      var branches;
      branches, ok := AnalyzeBranches(s.branches);
      if !ok {
        NodeFails(s0, Now(), s);
        return None, false;
      }
      ghost var gotos1 := gotos;
      var otherwise := AnalyzeOtherwise(s.otherwise);
      ghost var s1 := Now();
      node := FinishIfElse(branches, otherwise);
      IfElseEffect(s0, gotos1, s1, Now(), s, branches, otherwise, node);
    }

    /** The assignment in the head of a for loop, if there is one; false with an error. */
    method AnalyzeOptAssignment(a: Option<Assign>) returns (r: Option<Action>, ok: bool)
      requires Valid()
      ensures ok <==> OptAssignOk(a, Now().Top().mappings)
      ensures ok ==> r == OptAssignment(a, Now().Top().mappings) && OptAssignBuilt(a, Now().Top().mappings, r)
    {
      if a.None? {
        return None, true;
      }
      r := AnalyzeAssignment(a.value);
      ok := r.Some?;
    }

    /** analyze_for_loop */
    method AnalyzeForLoop(s: AStmt) returns (node: Option<Stmt>, ok: bool)
      requires Valid() && s.AFor?
      modifies this
      ensures NodeEffect(old(Now()), Now(), s, ok, node)
      ensures ok ==>
        && node.Some? && node.value.For?
        && OptAssignBuilt(s.init, old(Now().Top().mappings), node.value.init)
        && OptAssignBuilt(s.update, old(Now().Top().mappings), node.value.update)
      decreases s, 0
    {
      ghost var s0 := Now();
      var init, update;
      init, ok := AnalyzeOptAssignment(s.init);
      if !ok {
        NodeFails(s0, s0, s);
        return None, false;
      }
      var cond := AnalyzeCondition(s.cond);
      if cond.None? {
        NodeFails(s0, s0, s);
        return None, false;
      }
      update, ok := AnalyzeOptAssignment(s.update);
      if !ok {
        NodeFails(s0, s0, s);
        return None, false;
      }
      var body := AnalyzeSubblock(s.body, true);
      ForEffect(s0, Now(), s, body);
      return Some(For(init, cond.value, update, body)), true;
    }

    /** analyze_foreach_loop */
    method AnalyzeForeachLoop(s: AStmt) returns (node: Option<Stmt>, ok: bool)
      requires Valid() && s.AForeach?
      modifies this
      ensures NodeEffect(old(Now()), Now(), s, ok, node)
      ensures ok ==>
        && node.Some? && node.value.Foreach?
        && Resolve(s.lhs, old(Now().Top().mappings)) == Some(node.value.lhs)
        && Resolve(s.frm, old(Now().Top().mappings)) == Some(ConstInt(node.value.frm))
        && Resolve(s.to, old(Now().Top().mappings)) == Some(ConstInt(node.value.to))
      decreases s, 0
    {
      var lhs := AnalyzeExpression(s.lhs);
      if lhs.None? || !lhs.value.Dynamic? || lhs.value.boolean || !lhs.value.assignable { return None, false; }
      var frm := AnalyzeAsConstInt(s.frm);
      if frm.None? { return None, false; }
      var to := AnalyzeAsConstInt(s.to);
      if to.None? { return None, false; }
      var body := AnalyzeSubblock(s.body, true);
      PruneOneStmt(ElabStmt(s, Now().Top().mappings)[0]);
      return Some(Foreach(lhs.value, frm.value, to.value, body)), true;
    }

    /** analyze_while_loop */
    method AnalyzeWhileLoop(s: AStmt) returns (node: Option<Stmt>, ok: bool)
      requires Valid() && s.AWhile?
      modifies this
      ensures NodeEffect(old(Now()), Now(), s, ok, node)
      decreases s, 0
    {
      var cond := AnalyzeCondition(s.cond);
      if cond.None? { return None, false; }
      var body := AnalyzeSubblock(s.body, true);
      PruneOneStmt(ElabStmt(s, Now().Top().mappings)[0]);
      if cond.value == FALSE {
        return None, true;
      }
      return Some(While(cond.value, body)), true;
    }

    /** analyze_repeat_until_loop */
    method AnalyzeRepeatUntilLoop(s: AStmt) returns (node: Option<Stmt>, ok: bool)
      requires Valid() && s.ARepeatUntil?
      modifies this
      ensures NodeEffect(old(Now()), Now(), s, ok, node)
      decreases s, 0
    {
      var body := AnalyzeSubblock(s.body, true);
      PruneOneStmt(ElabStmt(s, Now().Top().mappings)[0]);
      var cond := AnalyzeCondition(s.cond);
      if cond.None? { return None, false; }
      if cond.value == TRUE {
        AddAll(body);
        return None, true;
      }
      return Some(RepeatUntil(body, cond.value)), true;
    }
  }

  // ----- the lists of the loops, one element at a time -----

  /** How far a bundle has come when rest remains and n errors were reported. */
  ghost predicate ItemsLeft(insns: seq<AInsn>, env: Env, rest: seq<AInsn>, items: seq<Insn>, n: nat,
      gotos0: seq<string>, gotos: seq<string>)
  {
    && (n == 0 ==> (InsnsOk(insns, env) <==> InsnsOk(rest, env)))
    && (n == 0 ==> Live(ElabInsns(insns, env)) == items + Live(ElabInsns(rest, env)))
    && (n > 0 ==> !InsnsOk(insns, env)) && gotos0 + InsnTargets(insns) == gotos + InsnTargets(rest)
  }

  function ItemsAfter(items: seq<Insn>, x: Insn): seq<Insn> {
    if x.cond == FALSE then items else items + [x]
  }

  lemma ItemsStart(insns: seq<AInsn>, env: Env, gotos: seq<string>)
    ensures ItemsLeft(insns, env, insns[0..], [], 0, gotos, gotos)
  {
    assert insns[0..] == insns && [] + Live(ElabInsns(insns, env)) == Live(ElabInsns(insns, env));
  }

  /** One instruction more, which is in error, dropped or kept. */
  lemma ItemsStep(insns: seq<AInsn>, env: Env, i: nat, items: seq<Insn>, n: nat, gotos0: seq<string>,
      gotos: seq<string>)
    requires i < |insns| && ItemsLeft(insns, env, insns[i..], items, n, gotos0, gotos)
    ensures var gotos1 := gotos + InsnTargets([insns[i]]);
      if InsnOk(insns[i], env) then
        ItemsLeft(insns, env, insns[i + 1..], ItemsAfter(items, ElabInsn(insns[i], env)), n, gotos0, gotos1)
      else ItemsLeft(insns, env, insns[i + 1..], items, n + 1, gotos0, gotos1)
  {
    var rest := insns[i..];
    assert rest[0] == insns[i] && rest[1..] == insns[i + 1..];
    LiveCons(rest, env, items);
    TargetsCons(rest, gotos);
  }

  lemma ItemsEnd(insns: seq<AInsn>, env: Env, items: seq<Insn>, n: nat, gotos0: seq<string>, gotos: seq<string>)
    requires ItemsLeft(insns, env, insns[|insns|..], items, n, gotos0, gotos)
    ensures (n == 0 <==> InsnsOk(insns, env)) && gotos == gotos0 + InsnTargets(insns)
    ensures n == 0 ==> items == Live(ElabInsns(insns, env))
  {
    assert insns[|insns|..] == [] && items + [] == items && gotos + [] == gotos;
  }

  lemma LiveCons(rest: seq<AInsn>, env: Env, items: seq<Insn>)
    requires rest != []
    ensures var n := ElabInsn(rest[0], env);
      items + Live(ElabInsns(rest, env)) ==
        (if n.cond == FALSE then items else items + [n]) + Live(ElabInsns(rest[1..], env))
  {
    var e, n := ElabInsns(rest, env), ElabInsn(rest[0], env);
    assert e[0] == n && e[1..] == ElabInsns(rest[1..], env);
    if n.cond == FALSE {
      assert [] + Live(e[1..]) == Live(e[1..]);
    } else {
      assert items + ([n] + Live(e[1..])) == (items + [n]) + Live(e[1..]);
    }
  }

  lemma TargetsCons(rest: seq<AInsn>, gotos: seq<string>)
    requires rest != []
    ensures gotos + InsnTargets(rest) == (gotos + InsnTargets([rest[0]])) + InsnTargets(rest[1..])
  {
    var h := if rest[0].AGoto? then [rest[0].target] else [];
    OneTarget(rest[0]);
    ConcatAssoc(gotos, h, InsnTargets(rest[1..]));
  }

  lemma RemovalStep(branches: seq<Branch>, idx: nat, otherwise: Else)
    requires idx < |branches|
    ensures var rest, b := branches[idx + 1..], branches[idx];
      && Kept(branches[idx..]) ==
        (if b.cond == TRUE then [] else if b.cond == FALSE then Kept(rest) else [b] + Kept(rest))
      && (branches[..idx] + rest)[..idx] == branches[..idx] && (branches[..idx] + rest)[idx..] == rest
      && branches[..idx] + ([b] + Kept(rest)) == branches[..idx + 1] + Kept(rest)
      && branches[..idx][..idx] == branches[..idx] && branches[..idx][idx..] == []
    ensures Final(branches[idx..], otherwise)
      == if branches[idx].cond == TRUE then Else(branches[idx].body) else Final(branches[idx + 1..], otherwise)
  {
    var all := branches[idx..];
    assert all[0] == branches[idx] && all[1..] == branches[idx + 1..];
    assert [] + Kept(all[1..]) == Kept(all[1..]);
  }

  lemma OneTarget(i: AInsn)
    ensures InsnTargets([i]) == if i.AGoto? then [i.target] else []
  {
    assert [i][1..] == [];
  }

  lemma BranchesCons(rest: seq<ABranch>, env: Env, branches: seq<Branch>, gotos: seq<string>)
    requires rest != []
    ensures branches + PruneBodies(ElabBranches(rest, env))
         == (branches + [Branch(Val(rest[0].cond, env), Prune(Elab(rest[0].body, env)))])
           + PruneBodies(ElabBranches(rest[1..], env))
    ensures gotos + BranchTargets(rest) == (gotos + Targets(rest[0].body)) + BranchTargets(rest[1..])
  {
    var e, b := ElabBranches(rest, env), Branch(Val(rest[0].cond, env), Prune(Elab(rest[0].body, env)));
    assert e[0] == Branch(Val(rest[0].cond, env), Elab(rest[0].body, env)) && e[1..] == ElabBranches(rest[1..], env);
    assert branches + ([b] + PruneBodies(e[1..])) == (branches + [b]) + PruneBodies(e[1..]);
    assert gotos + (Targets(rest[0].body) + BranchTargets(rest[1..])) ==
      (gotos + Targets(rest[0].body)) + BranchTargets(rest[1..]);
  }

  lemma PruneOneStmt(s: Stmt)
    ensures Prune([s]) == PruneStmt(s)
  {
    assert [s][0] == s && [s][1..] == [] && PruneStmt(s) + [] == PruneStmt(s);
  }

  lemma BundleOut(insns: seq<AInsn>, env: Env)
    ensures Prune(ElabStmt(ABundle(insns), env)) ==
      if Live(ElabInsns(insns, env)) == [] then [] else [Bundle(Live(ElabInsns(insns, env)))]
  {
    PruneOneStmt(Bundle(ElabInsns(insns, env)));
  }

  /** A bundle of which items is left, to the state s1, and then added. */
  lemma BundleEffect(s0: State, s1: State, s2: State, insns: seq<AInsn>, items: seq<Insn>)
    requires s0.Valid() && s1 == s0.(errors := s1.errors, gotos := s0.gotos + InsnTargets(insns))
    requires s1.errors >= s0.errors && (s1.errors == s0.errors <==> InsnsOk(insns, s0.Top().mappings))
    requires s1.errors == s0.errors ==> items == Live(ElabInsns(insns, s0.Top().mappings))
    requires Framed(s1, s2) && s2.Top().mappings == s1.Top().mappings && s2.errors == s1.errors && s2.gotos == s1.gotos
    requires s2.View() == AddTo(s1.View(), if items == [] then [] else [Bundle(items)])
    ensures Effect(s0, s2, ABundle(insns))
  {
    BundleOut(insns, s0.Top().mappings);
  }

  lemma AddToEmpty(out: Block)
    ensures AddTo([Sub("", 1, [])], out) == [Sub("", 1, out)]
  {
    assert [] + out == out;
  }

  /** break and continue */
  lemma JumpEffect(s0: State, s: AStmt, x: Stmt)
    requires s0.Valid() && ((s == ABreak && x == Break) || (s == AContinue && x == Continue))
    ensures NodeEffect(s0, s0, s, s0.Top().withinLoop, Some(x))
  {
    PruneOneStmt(x);
    assert s0.gotos + [] == s0.gotos;
  }

  /** A statement whose error is still to be reported. */
  lemma NodeFails(s0: State, s1: State, s: AStmt)
    requires s0.Valid() && Framed(s0, s1) && s1.Top().mappings == s0.Top().mappings
    requires s1.errors == s0.errors ==> !StmtOk(s, s0.Top().mappings, s0.Top().withinLoop, s0.Global())
    requires StmtOk(s, s0.Top().mappings, s0.Top().withinLoop, s0.Global()) ==> s1.errors == s0.errors
    ensures NodeEffect(s0, s1, s, false, None)
  {
  }

  lemma ForEffect(s0: State, s1: State, s: AStmt, body: Block)
    requires s.AFor? && SubEffect(s0, s1, s.body, true, body)
    requires var env := s0.Top().mappings;
      OptAssignOk(s.init, env) && CondOk(s.cond, env) && OptAssignOk(s.update, env)
    ensures var env := s0.Top().mappings;
      NodeEffect(s0, s1, s, true, Some(For(OptAssignment(s.init, env), Val(s.cond, env), OptAssignment(s.update, env),
        body)))
  {
    PruneOneStmt(ElabStmt(s, s0.Top().mappings)[0]);
  }

  /** An if-else whose branches and otherwise block were analysed, to the state s1, and then finished. */
  lemma IfElseEffect(s0: State, gotos1: seq<string>, s1: State, s2: State, s: AStmt, branches: seq<Branch>,
      otherwise: Else,
      node: Option<Stmt>)
    requires s.AIfElse? && s0.Valid() && s1.Valid() && s1.scopes == s0.scopes && s1.subcircuits == s0.subcircuits
    requires s1.errors >= s0.errors && Framed(s1, s2) && s2.Top().mappings == s1.Top().mappings
    requires s2.errors == s1.errors && s2.gotos == s1.gotos
    requires s1.errors == s0.errors <==> StmtOk(s, s0.Top().mappings, s0.Top().withinLoop, s0.Global())
    requires s1.errors == s0.errors ==>
      && branches == PruneBodies(ElabBranches(s.branches, s0.Top().mappings))
      && otherwise == PruneElse(ElabElse(s.otherwise, s0.Top().mappings))
      && gotos1 == s0.gotos + BranchTargets(s.branches) && s1.gotos == gotos1 + ElseTargets(s.otherwise)
    requires AddTo(s2.View(), NodeBlock(node)) == AddTo(s1.View(), PruneIf(branches, otherwise))
    ensures NodeEffect(s0, s2, s, true, node)
  {
    ConcatAssoc(s0.gotos, BranchTargets(s.branches), ElseTargets(s.otherwise));
    PruneOneStmt(ElabStmt(s, s0.Top().mappings)[0]);
  }

  /** The end of analyze_structured. */
  lemma NodeAdded(s0: State, s1: State, s2: State, s: AStmt, ok: bool, node: Option<Stmt>)
    requires NodeEffect(s0, s1, s, ok, node) && !s.AMapping? && !s.ASubcircuit? && Framed(s1, s2)
    requires s2.Top().mappings == s1.Top().mappings && (ok ==> s2.errors == s1.errors && s2.gotos == s1.gotos)
    requires ok ==> s2.View() == AddTo(s1.View(), NodeBlock(node))
    requires !ok ==> s2.errors > s1.errors
    ensures Effect(s0, s2, s)
  {
    FramedTrans(s0, s1, s2);
  }
}
