/** The scope stack of the v1x analyser.  Opening a block copies the mappings of the scope around it, so that a
    lookup needs no search.  This is lexical scoping all the same: a program is analysed like the one in which
    every name has given way to its latest binding in the innermost block that binds it. */
module ScopeStack {
  import opened Wrappers
  import opened SemanticTree
  import opened Pruning
  import opened Analysis
  import opened AnalyzerHelpers

  // ----- lexical scoping -----

  /** The frames of the blocks around a statement, the innermost last: each holds only what its own block binds. */
  type Frames = s: seq<Env> | |s| >= 1 witness [map[]]

  /** The innermost frame that binds the name decides. */
  function Innermost(frames: seq<Env>, name: string): Option<Value> {
    if frames == [] then None
    else
      var top := frames[|frames| - 1];
      if Lower(name) in top then Some(top[Lower(name)]) else Innermost(frames[..|frames| - 1], name)
  }

  function Meaning(e: Expr, frames: Frames): Option<Value> {
    match e case Lit(v) => Some(v) case Name(n) => Innermost(frames, n)
  }

  function FramesAfter(s: AStmt, frames: Frames): Frames {
    if s.AMapping? && Meaning(s.expr, frames).Some? then
      var k := |frames| - 1;
      frames[k := frames[k][Lower(s.name) := Meaning(s.expr, frames).value]]
    else frames
  }

  /** A name that means nothing stays. */
  function CloseExpr(e: Expr, frames: Frames): Expr {
    match Meaning(e, frames) case Some(v) => Lit(v) case None => e
  }

  function CloseExprs(es: seq<Expr>, frames: Frames): seq<Expr> {
    seq(|es|, i requires 0 <= i < |es| => CloseExpr(es[i], frames))
  }

  function CloseOption(e: Option<Expr>, frames: Frames): Option<Expr> {
    if e.Some? then Some(CloseExpr(e.value, frames)) else None
  }

  function CloseAssign(a: Assign, frames: Frames): Assign {
    Assign(CloseExpr(a.lhs, frames), CloseExpr(a.rhs, frames))
  }

  function CloseOptAssign(a: Option<Assign>, frames: Frames): Option<Assign> {
    if a.Some? then Some(CloseAssign(a.value, frames)) else None
  }

  function CloseInsn(i: AInsn, frames: Frames): AInsn {
    match i
    case AGate(op, operands, c) => AGate(op, CloseExprs(operands, frames), CloseOption(c, frames))
    case ASet(a, c) => ASet(CloseAssign(a, frames), CloseOption(c, frames))
    case AGoto(t, c) => AGoto(t, CloseOption(c, frames))
  }

  function CloseInsns(insns: seq<AInsn>, frames: Frames): seq<AInsn> {
    if insns == [] then [] else [CloseInsn(insns[0], frames)] + CloseInsns(insns[1..], frames)
  }

  /** Every name replaced by what it means where it stands. */
  function CloseBlock(b: ABlock, frames: Frames): ABlock
    decreases b, 0
  {
    if b == [] then [] else [CloseStmt(b[0], frames)] + CloseBlock(b[1..], FramesAfter(b[0], frames))
  }

  /** A block inside another has a frame of its own. */
  function CloseInner(b: ABlock, frames: Frames): ABlock
    decreases b, 1
  {
    CloseBlock(b, frames + [map[]])
  }

  function CloseBranches(branches: seq<ABranch>, frames: Frames): seq<ABranch>
    decreases branches, 0
  {
    if branches == [] then []
    else
      [ABranch(CloseExpr(branches[0].cond, frames), CloseInner(branches[0].body, frames))]
      + CloseBranches(branches[1..], frames)
  }

  function CloseElse(e: AElse, frames: Frames): AElse
    decreases e, 0
  {
    match e case ANoElse => ANoElse case AElse(b) => AElse(CloseInner(b, frames))
  }

  function CloseStmt(s: AStmt, frames: Frames): AStmt
    decreases s, 1
  {
    match s
    case ABundle(insns) => ABundle(CloseInsns(insns, frames))
    case AMapping(n, e) => AMapping(n, CloseExpr(e, frames))
    case ASubcircuit(n, iterations) => ASubcircuit(n, CloseOption(iterations, frames))
    case AIfElse(branches, otherwise) => AIfElse(CloseBranches(branches, frames), CloseElse(otherwise, frames))
    case AFor(init, c, update, body) =>
      AFor(CloseOptAssign(init, frames), CloseExpr(c, frames), CloseOptAssign(update, frames), CloseInner(body, frames))
    case AForeach(lhs, frm, to, body) =>
      AForeach(CloseExpr(lhs, frames), CloseExpr(frm, frames), CloseExpr(to, frames), CloseInner(body, frames))
    case AWhile(c, body) => AWhile(CloseExpr(c, frames), CloseInner(body, frames))
    case ARepeatUntil(body, c) => ARepeatUntil(CloseInner(body, frames), CloseExpr(c, frames))
    case ABreak => ABreak
    case AContinue => AContinue
  }

  // ----- a copy of the mappings against frames -----

  /** The mappings answer for the frames, and where the closed program is analysed no other names are known. */
  ghost predicate Agree(env: Env, frames: Frames, closed: Env) {
    && (forall n :: Resolve(Name(n), env) == Innermost(frames, n))
    && forall x :: x in closed ==> x in env
  }

  lemma AgreeInner(env: Env, frames: Frames, closed: Env)
    requires Agree(env, frames, closed)
    ensures Agree(env, frames + [map[]], closed)
  {
    var f := frames + [map[]];
    forall n ensures Resolve(Name(n), env) == Innermost(f, n) {
      assert f[..|f| - 1] == frames;
      assert Resolve(Name(n), env) == Innermost(frames, n);
    }
  }

  lemma CloseExprMeans(e: Expr, env: Env, frames: Frames, closed: Env)
    requires Agree(env, frames, closed)
    ensures Resolve(CloseExpr(e, frames), closed) == Resolve(e, env)
  {
    if e.Name? { assert Resolve(Name(e.name), env) == Innermost(frames, e.name); }
  }

  lemma AgreeAfter(s: AStmt, env: Env, frames: Frames, closed: Env)
    requires Agree(env, frames, closed)
    ensures Agree(EnvAfter(s, env), FramesAfter(s, frames), EnvAfter(CloseStmt(s, frames), closed))
  {
    if s.AMapping? && Resolve(s.expr, env).Some? {
      CloseExprMeans(s.expr, env, frames, closed);
      var f := FramesAfter(s, frames);
      var k := |frames| - 1;
      assert Meaning(s.expr, frames) == Resolve(s.expr, env) by {
        if s.expr.Name? { assert Resolve(s.expr, env) == Innermost(frames, s.expr.name); }
      }
      forall n ensures Resolve(Name(n), EnvAfter(s, env)) == Innermost(f, n) {
        assert Resolve(Name(n), env) == Innermost(frames, n);
        assert f[..k] == frames[..k];
      }
    } else if s.AMapping? {
      CloseExprMeans(s.expr, env, frames, closed);
      if s.expr.Name? { assert Resolve(s.expr, env) == Innermost(frames, s.expr.name); }
    }
  }

  // ----- the analysis of the closed program -----

  lemma CloseAssignMeans(a: Assign, env: Env, frames: Frames, closed: Env)
    requires Agree(env, frames, closed)
    ensures AssignOk(CloseAssign(a, frames), closed) <==> AssignOk(a, env)
    ensures Assignment(CloseAssign(a, frames), closed) == Assignment(a, env)
  {
    CloseExprMeans(a.lhs, env, frames, closed);
    CloseExprMeans(a.rhs, env, frames, closed);
  }

  lemma {:induction false} CloseExprsMean(es: seq<Expr>, env: Env, frames: Frames, closed: Env)
    requires Agree(env, frames, closed)
    ensures OperandsOk(CloseExprs(es, frames), closed) <==> OperandsOk(es, env)
    ensures Vals(CloseExprs(es, frames), closed) == Vals(es, env)
  {
    var cs := CloseExprs(es, frames);
    forall i | 0 <= i < |es| ensures Resolve(cs[i], closed) == Resolve(es[i], env) {
      CloseExprMeans(es[i], env, frames, closed);
    }
    if es != [] {
      assert cs[1..] == CloseExprs(es[1..], frames);
      CloseExprsMean(es[1..], env, frames, closed);
    }
  }

  lemma CloseInsnMeans(i: AInsn, env: Env, frames: Frames, closed: Env)
    requires Agree(env, frames, closed)
    ensures InsnOk(CloseInsn(i, frames), closed) <==> InsnOk(i, env)
    ensures ElabInsn(CloseInsn(i, frames), closed) == ElabInsn(i, env)
  {
    if i.cond.Some? { CloseExprMeans(i.cond.value, env, frames, closed); }
    match i
    case AGate(_, operands, _) => CloseExprsMean(operands, env, frames, closed);
    case ASet(a, _) => CloseAssignMeans(a, env, frames, closed);
    case AGoto(_, _) =>
  }

  lemma {:induction false} CloseInsnsMean(insns: seq<AInsn>, env: Env, frames: Frames, closed: Env)
    requires Agree(env, frames, closed)
    ensures InsnsOk(CloseInsns(insns, frames), closed) <==> InsnsOk(insns, env)
    ensures ElabInsns(CloseInsns(insns, frames), closed) == ElabInsns(insns, env)
    ensures InsnTargets(CloseInsns(insns, frames)) == InsnTargets(insns)
  {
    if insns != [] {
      CloseInsnMeans(insns[0], env, frames, closed);
      CloseInsnsMean(insns[1..], env, frames, closed);
      assert CloseInsns(insns, frames)[1..] == CloseInsns(insns[1..], frames);
    }
  }

  /** A closed statement obeys the same rules, becomes the same and has the same goto targets. */
  ghost predicate SameStmt(s: AStmt, env: Env, c: AStmt, closed: Env) {
    && (forall inLoop, top :: StmtOk(c, closed, inLoop, top) <==> StmtOk(s, env, inLoop, top))
    && ElabStmt(c, closed) == ElabStmt(s, env) && StmtTargets(c) == StmtTargets(s)
  }

  ghost predicate SameBlock(b: ABlock, env: Env, c: ABlock, closed: Env) {
    && (forall inLoop, top :: BlockOk(c, closed, inLoop, top) <==> BlockOk(b, env, inLoop, top))
    && Elab(c, closed) == Elab(b, env) && Targets(c) == Targets(b)
  }

  lemma SameIfElse(s: AStmt, env: Env, c: AStmt, closed: Env)
    requires s.AIfElse? && c.AIfElse?
    requires forall inLoop :: BranchesOk(c.branches, closed, inLoop) <==> BranchesOk(s.branches, env, inLoop)
    requires ElabBranches(c.branches, closed) == ElabBranches(s.branches, env)
    requires BranchTargets(c.branches) == BranchTargets(s.branches)
    requires c.otherwise.AElse? <==> s.otherwise.AElse?
    requires s.otherwise.AElse? ==> SameBlock(s.otherwise.block, env, c.otherwise.block, closed)
    requires ElabElse(c.otherwise, closed) == ElabElse(s.otherwise, env)
    requires ElseTargets(c.otherwise) == ElseTargets(s.otherwise)
    ensures SameStmt(s, env, c, closed)
  {
    assert ElabStmt(c, closed) == [IfElse(ElabBranches(c.branches, closed), ElabElse(c.otherwise, closed))];
    assert ElabStmt(s, env) == [IfElse(ElabBranches(s.branches, env), ElabElse(s.otherwise, env))];
    assert StmtTargets(c) == BranchTargets(c.branches) + ElseTargets(c.otherwise);
    assert StmtTargets(s) == BranchTargets(s.branches) + ElseTargets(s.otherwise);
  }

  lemma SameFor(s: AStmt, env: Env, frames: Frames, closed: Env)
    requires s.AFor? && Agree(env, frames, closed) && SameBlock(s.body, env, CloseInner(s.body, frames), closed)
    ensures SameStmt(s, env, CloseStmt(s, frames), closed)
  {
    var c := CloseStmt(s, frames);
    if s.init.Some? { CloseAssignMeans(s.init.value, env, frames, closed); }
    CloseExprMeans(s.cond, env, frames, closed);
    if s.update.Some? { CloseAssignMeans(s.update.value, env, frames, closed); }
    assert ElabStmt(c, closed) == ElabStmt(s, env);
    assert StmtTargets(c) == Targets(c.body) && StmtTargets(s) == Targets(s.body);
  }

  lemma SameForeach(s: AStmt, env: Env, frames: Frames, closed: Env)
    requires s.AForeach? && Agree(env, frames, closed) && SameBlock(s.body, env, CloseInner(s.body, frames), closed)
    ensures SameStmt(s, env, CloseStmt(s, frames), closed)
  {
    var c := CloseStmt(s, frames);
    CloseExprMeans(s.lhs, env, frames, closed);
    CloseExprMeans(s.frm, env, frames, closed);
    CloseExprMeans(s.to, env, frames, closed);
    assert ElabStmt(c, closed) == ElabStmt(s, env);
    assert StmtTargets(c) == Targets(c.body) && StmtTargets(s) == Targets(s.body);
  }

  lemma SameWhile(s: AStmt, env: Env, frames: Frames, closed: Env)
    requires s.AWhile? && Agree(env, frames, closed) && SameBlock(s.body, env, CloseInner(s.body, frames), closed)
    ensures SameStmt(s, env, CloseStmt(s, frames), closed)
  {
    CloseExprMeans(s.cond, env, frames, closed);
    var c := CloseStmt(s, frames);
    assert ElabStmt(c, closed) == ElabStmt(s, env);
    assert StmtTargets(c) == Targets(c.body) && StmtTargets(s) == Targets(s.body);
  }

  lemma SameRepeat(s: AStmt, env: Env, frames: Frames, closed: Env)
    requires s.ARepeatUntil? && Agree(env, frames, closed)
    requires SameBlock(s.body, env, CloseInner(s.body, frames), closed)
    ensures SameStmt(s, env, CloseStmt(s, frames), closed)
  {
    CloseExprMeans(s.cond, env, frames, closed);
    var c := CloseStmt(s, frames);
    assert ElabStmt(c, closed) == ElabStmt(s, env);
    assert StmtTargets(c) == Targets(c.body) && StmtTargets(s) == Targets(s.body);
  }

  lemma {:induction false} CloseStmtSame(s: AStmt, env: Env, frames: Frames, closed: Env)
    requires Agree(env, frames, closed)
    ensures SameStmt(s, env, CloseStmt(s, frames), closed)
    decreases s, 1
  {
    match s
    case ABundle(insns) => CloseInsnsMean(insns, env, frames, closed);
    case AMapping(_, e) => CloseExprMeans(e, env, frames, closed);
    case ASubcircuit(_, n) => if n.Some? { CloseExprMeans(n.value, env, frames, closed); }
    case AIfElse(branches, otherwise) =>
      CloseBranchesSame(branches, env, frames, closed);
      CloseElseSame(otherwise, env, frames, closed);
      SameIfElse(s, env, CloseStmt(s, frames), closed);
    case AFor(_, _, _, body) =>
      CloseInnerSame(body, env, frames, closed);
      SameFor(s, env, frames, closed);
    case AForeach(_, _, _, body) =>
      CloseInnerSame(body, env, frames, closed);
      SameForeach(s, env, frames, closed);
    case AWhile(_, body) =>
      CloseInnerSame(body, env, frames, closed);
      SameWhile(s, env, frames, closed);
    case ARepeatUntil(body, _) =>
      CloseInnerSame(body, env, frames, closed);
      SameRepeat(s, env, frames, closed);
    case ABreak =>
    case AContinue =>
  }

  lemma {:induction false} CloseBranchesSame(branches: seq<ABranch>, env: Env, frames: Frames, closed: Env)
    requires Agree(env, frames, closed)
    ensures forall inLoop ::
      BranchesOk(CloseBranches(branches, frames), closed, inLoop) <==> BranchesOk(branches, env, inLoop)
    ensures ElabBranches(CloseBranches(branches, frames), closed) == ElabBranches(branches, env)
    ensures BranchTargets(CloseBranches(branches, frames)) == BranchTargets(branches)
    decreases branches, 0
  {
    if branches != [] {
      CloseExprMeans(branches[0].cond, env, frames, closed);
      CloseInnerSame(branches[0].body, env, frames, closed);
      CloseBranchesSame(branches[1..], env, frames, closed);
      assert CloseBranches(branches, frames)[1..] == CloseBranches(branches[1..], frames);
    }
  }

  lemma {:induction false} CloseElseSame(e: AElse, env: Env, frames: Frames, closed: Env)
    requires Agree(env, frames, closed)
    ensures e.AElse? <==> CloseElse(e, frames).AElse?
    ensures e.AElse? ==> SameBlock(e.block, env, CloseElse(e, frames).block, closed)
    ensures ElabElse(CloseElse(e, frames), closed) == ElabElse(e, env)
    ensures ElseTargets(CloseElse(e, frames)) == ElseTargets(e)
    decreases e, 0
  {
    if e.AElse? { CloseInnerSame(e.block, env, frames, closed); }
  }

  lemma {:induction false} CloseInnerSame(b: ABlock, env: Env, frames: Frames, closed: Env)
    requires Agree(env, frames, closed)
    ensures SameBlock(b, env, CloseInner(b, frames), closed)
    decreases b, 1
  {
    AgreeInner(env, frames, closed);
    CloseBlockSame(b, env, frames + [map[]], closed);
  }

  lemma SameCons(b: ABlock, env: Env, c: ABlock, closed: Env)
    requires b != [] && c != [] && SameStmt(b[0], env, c[0], closed)
    requires SameBlock(b[1..], EnvAfter(b[0], env), c[1..], EnvAfter(c[0], closed))
    ensures SameBlock(b, env, c, closed)
  {
    assert Elab(c, closed) == ElabStmt(c[0], closed) + Elab(c[1..], EnvAfter(c[0], closed));
    assert Elab(b, env) == ElabStmt(b[0], env) + Elab(b[1..], EnvAfter(b[0], env));
    assert Targets(c) == StmtTargets(c[0]) + Targets(c[1..]);
    assert Targets(b) == StmtTargets(b[0]) + Targets(b[1..]);
  }

  lemma {:induction false} CloseBlockSame(b: ABlock, env: Env, frames: Frames, closed: Env)
    requires Agree(env, frames, closed)
    ensures SameBlock(b, env, CloseBlock(b, frames), closed)
    decreases b, 0
  {
    if b != [] {
      CloseStmtSame(b[0], env, frames, closed);
      AgreeAfter(b[0], env, frames, closed);
      var c := CloseBlock(b, frames);
      assert c[1..] == CloseBlock(b[1..], FramesAfter(b[0], frames));
      CloseBlockSame(b[1..], EnvAfter(b[0], env), FramesAfter(b[0], frames), EnvAfter(c[0], closed));
      SameCons(b, env, c, closed);
    }
  }

  lemma {:induction false} CloseAssembles(b: ABlock, env: Env, frames: Frames, closed: Env, subs: seq<Sub>)
    requires Agree(env, frames, closed)
    ensures Assemble(true, CloseBlock(b, frames), closed, subs) == Assemble(true, b, env, subs)
  {
    if b != [] {
      var c := CloseBlock(b, frames);
      assert c[1..] == CloseBlock(b[1..], FramesAfter(b[0], frames));
      CloseStmtSame(b[0], env, frames, closed);
      if b[0].ASubcircuit? && b[0].iterations.Some? {
        CloseExprMeans(b[0].iterations.value, env, frames, closed);
      }
      AgreeAfter(b[0], env, frames, closed);
      CloseAssembles(b[1..], EnvAfter(b[0], env), FramesAfter(b[0], frames), EnvAfter(c[0], closed),
        Place(true, b[0], env, subs));
    }
  }

  /** What AnalyzeStatements makes of a block under the mappings of its scope is what the closed block is without
      any mappings: whether there is an error, the statements gained and the goto targets. */
  lemma LexicalScoping(s0: State, s1: State, b: ABlock)
    requires Effects(s0, s1, b)
    ensures var c := CloseBlock(b, [s0.Top().mappings]);
      && (s1.errors == s0.errors <==> BlockOk(c, map[], s0.Top().withinLoop, s0.Global()))
      && (s1.errors == s0.errors ==>
        s1.View() == Assemble(true, c, map[], s0.View()) && s1.gotos == s0.gotos + Targets(c))
  {
    var env := s0.Top().mappings;
    var frames: Frames := [env];
    assert Agree(env, frames, map[]) by {
      forall n ensures Resolve(Name(n), env) == Innermost(frames, n) { assert Innermost(frames[..0], n) == None; }
    }
    CloseBlockSame(b, env, frames, map[]);
    CloseAssembles(b, env, frames, map[], s0.View());
  }
}
