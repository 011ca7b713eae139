/** The rules of the v1x analyser, against the tree that a program is resolved to: a program is legal exactly if its
    expressions mean something where they stand and the tree is made of legal parts, with break and continue in
    loops. */
module Legality {
  import opened Wrappers
  import opened SemanticTree
  import opened Pruning
  import opened Analysis
  import opened TreeParts
  import opened LoopLegality

  predicate Means(e: Expr, env: Env) {
    Resolve(e, env).Some?
  }

  predicate OptionMeans(e: Option<Expr>, env: Env) {
    e.Some? ==> Means(e.value, env)
  }

  predicate OptAssignMeans(a: Option<Assign>, env: Env) {
    a.Some? ==> Means(a.value.lhs, env) && Means(a.value.rhs, env)
  }

  predicate ConstantMeans(e: Expr, env: Env, least: Option<int>) {
    match Resolve(e, env) case Some(ConstInt(n)) => (least.Some? ==> n >= least.value) case _ => false
  }

  predicate InsnMeans(i: AInsn, env: Env) {
    && OptionMeans(i.cond, env)
    && match i
      case AGate(_, es, _) => forall k :: 0 <= k < |es| ==> Means(es[k], env)
      case ASet(a, _) => Means(a.lhs, env) && Means(a.rhs, env)
      case AGoto(_, _) => true
  }

  /** Every expression of b resolves where it stands, to a constant where one is needed, and headers stand at the
      top. */
  predicate BlockMeans(b: ABlock, env: Env, top: bool)
    decreases b, 0
  {
    b == [] || (StmtMeans(b[0], env, top) && BlockMeans(b[1..], EnvAfter(b[0], env), top))
  }

  predicate BranchesMean(branches: seq<ABranch>, env: Env)
    decreases branches, 0
  {
    branches == []
      || (Means(branches[0].cond, env) && BlockMeans(branches[0].body, env, false) && BranchesMean(branches[1..], env))
  }

  predicate StmtMeans(s: AStmt, env: Env, top: bool)
    decreases s, 1
  {
    match s
    case ABundle(insns) => forall k :: 0 <= k < |insns| ==> InsnMeans(insns[k], env)
    case AMapping(_, e) => Means(e, env)
    case ASubcircuit(_, n) => top && (n.Some? ==> ConstantMeans(n.value, env, Some(1)))
    case AIfElse(branches, otherwise) =>
      BranchesMean(branches, env) && (otherwise.AElse? ==> BlockMeans(otherwise.block, env, false))
    case AFor(init, c, update, body) =>
      OptAssignMeans(init, env) && Means(c, env) && OptAssignMeans(update, env) && BlockMeans(body, env, false)
    case AForeach(lhs, frm, to, body) =>
      Means(lhs, env) && ConstantMeans(frm, env, None) && ConstantMeans(to, env, None) && BlockMeans(body, env, false)
    case AWhile(c, body) => Means(c, env) && BlockMeans(body, env, false)
    case ARepeatUntil(body, c) => BlockMeans(body, env, false) && Means(c, env)
    case ABreak => true
    case AContinue => true
  }

  // ----- legal exactly if -----

  lemma AllLegalUnion(a: set<Part>, b: set<Part>)
    ensures AllLegal(a + b) <==> AllLegal(a) && AllLegal(b)
  {
  }

  lemma AllLegalPair(a: Action, v: Value)
    ensures AllLegal({Act(a), Cnd(v)}) <==> LegalPart(Act(a)) && LegalPart(Cnd(v))
  {
    assert Act(a) in {Act(a), Cnd(v)} && Cnd(v) in {Act(a), Cnd(v)};
  }

  lemma AllLegalOne(p: Part)
    ensures AllLegal({p}) <==> LegalPart(p)
  {
    assert p in {p};
  }

  lemma InsnExactly(i: AInsn, env: Env)
    ensures InsnOk(i, env) <==>
      InsnMeans(i, env) && LegalPart(Act(ElabInsn(i, env).action)) && LegalPart(Cnd(ElabInsn(i, env).cond))
  {
  }

  lemma {:induction false} InsnsExactly(insns: seq<AInsn>, env: Env)
    ensures InsnsOk(insns, env) <==>
      (forall k :: 0 <= k < |insns| ==> InsnMeans(insns[k], env)) && AllLegal(PartsInsns(ElabInsns(insns, env)))
  {
    if insns != [] {
      var n, tail := ElabInsn(insns[0], env), insns[1..];
      InsnExactly(insns[0], env);
      InsnsExactly(tail, env);
      assert forall k :: 0 < k < |insns| ==> insns[k] == tail[k - 1];
      var e := ElabInsns(insns, env);
      assert e[0] == n && e[1..] == ElabInsns(tail, env);
      AllLegalPair(n.action, n.cond);
      AllLegalUnion({Act(n.action), Cnd(n.cond)}, PartsInsns(e[1..]));
    }
  }

  /** No rule is stricter or laxer than this. */
  lemma {:induction false} LegalExactly(b: ABlock, env: Env, inLoop: bool, top: bool)
    ensures BlockOk(b, env, inLoop, top) <==>
      BlockMeans(b, env, top) && AllLegal(Parts(Elab(b, env))) && Placed(Elab(b, env), inLoop)
    decreases b, 0
  {
    if b != [] {
      var s, rest := ElabStmt(b[0], env), Elab(b[1..], EnvAfter(b[0], env));
      StmtExactly(b[0], env, inLoop, top);
      LegalExactly(b[1..], EnvAfter(b[0], env), inLoop, top);
      PartsConcat(s, rest);
      AllLegalUnion(Parts(s), Parts(rest));
      PlacedConcat(s, rest, inLoop);
    }
  }

  lemma {:induction false} BranchesExactly(branches: seq<ABranch>, env: Env, inLoop: bool)
    ensures BranchesOk(branches, env, inLoop) <==>
      && BranchesMean(branches, env) && AllLegal(PartsBranches(ElabBranches(branches, env)))
      && PlacedBranches(ElabBranches(branches, env), inLoop)
    decreases branches, 0
  {
    if branches != [] {
      LegalExactly(branches[0].body, env, inLoop, false);
      BranchesExactly(branches[1..], env, inLoop);
      var e := ElabBranches(branches, env);
      assert e[0] == Branch(Val(branches[0].cond, env), Elab(branches[0].body, env));
      assert e[1..] == ElabBranches(branches[1..], env);
      AllLegalOne(Cnd(e[0].cond));
      AllLegalUnion({Cnd(e[0].cond)}, Parts(e[0].body));
      AllLegalUnion({Cnd(e[0].cond)} + Parts(e[0].body), PartsBranches(e[1..]));
    }
  }

  lemma OptAssignExactly(a: Option<Assign>, env: Env)
    ensures OptAssignOk(a, env) <==> OptAssignMeans(a, env) && AllLegal(PartsOption(OptAssignment(a, env)))
  {
    if a.Some? { AllLegalOne(Act(Assignment(a.value, env))); }
  }

  lemma IfElseExactly(s: AStmt, env: Env, inLoop: bool, top: bool)
    requires s.AIfElse?
    requires BranchesOk(s.branches, env, inLoop) <==>
      && BranchesMean(s.branches, env) && AllLegal(PartsBranches(ElabBranches(s.branches, env)))
      && PlacedBranches(ElabBranches(s.branches, env), inLoop)
    requires s.otherwise.AElse? ==> (BlockOk(s.otherwise.block, env, inLoop, false) <==>
      && BlockMeans(s.otherwise.block, env, false) && AllLegal(Parts(Elab(s.otherwise.block, env)))
      && Placed(Elab(s.otherwise.block, env), inLoop))
    ensures StmtOk(s, env, inLoop, top) <==>
      StmtMeans(s, env, top) && AllLegal(PartsStmt(ElabStmt(s, env)[0])) && PlacedStmt(ElabStmt(s, env)[0], inLoop)
  {
    AllLegalUnion(PartsBranches(ElabBranches(s.branches, env)), PartsElse(ElabElse(s.otherwise, env)));
  }

  lemma ForExactly(s: AStmt, env: Env, inLoop: bool, top: bool)
    requires s.AFor?
    requires BlockOk(s.body, env, true, false) <==>
      BlockMeans(s.body, env, false) && AllLegal(Parts(Elab(s.body, env))) && Placed(Elab(s.body, env), true)
    ensures StmtOk(s, env, inLoop, top) <==>
      StmtMeans(s, env, top) && AllLegal(PartsStmt(ElabStmt(s, env)[0])) && PlacedStmt(ElabStmt(s, env)[0], inLoop)
  {
    var init, c := PartsOption(OptAssignment(s.init, env)), Cnd(Val(s.cond, env));
    var update := PartsOption(OptAssignment(s.update, env));
    OptAssignExactly(s.init, env);
    OptAssignExactly(s.update, env);
    AllLegalOne(c);
    AllLegalUnion(init, {c});
    AllLegalUnion(init + {c}, update);
    AllLegalUnion(init + {c} + update, Parts(Elab(s.body, env)));
  }

  /** The other loops, whose bodies come with one more part. */
  lemma LoopExactly(s: AStmt, body: ABlock, p: Part, env: Env, inLoop: bool, top: bool)
    requires match s
      case AForeach(lhs, _, _, b) => body == b && p == Counter(Val(lhs, env))
      case AWhile(c, b) => body == b && p == Cnd(Val(c, env))
      case ARepeatUntil(b, c) => body == b && p == Cnd(Val(c, env))
      case _ => false
    requires BlockOk(body, env, true, false) <==>
      BlockMeans(body, env, false) && AllLegal(Parts(Elab(body, env))) && Placed(Elab(body, env), true)
    ensures StmtOk(s, env, inLoop, top) <==>
      StmtMeans(s, env, top) && AllLegal(PartsStmt(ElabStmt(s, env)[0])) && PlacedStmt(ElabStmt(s, env)[0], inLoop)
  {
    AllLegalOne(p);
    AllLegalUnion({p}, Parts(Elab(body, env)));
    AllLegalUnion(Parts(Elab(body, env)), {p});
  }

  lemma {:induction false} StmtExactly(s: AStmt, env: Env, inLoop: bool, top: bool)
    ensures StmtOk(s, env, inLoop, top) <==>
      StmtMeans(s, env, top) && AllLegal(Parts(ElabStmt(s, env))) && Placed(ElabStmt(s, env), inLoop)
    decreases s, 1
  {
    var out := ElabStmt(s, env);
    if out != [] {
      PartsOne(out[0]);
      PlacedOne(out[0], inLoop);
    }
    match s
    case ABundle(insns) => InsnsExactly(insns, env);
    case AIfElse(branches, otherwise) =>
      BranchesExactly(branches, env, inLoop);
      if otherwise.AElse? { LegalExactly(otherwise.block, env, inLoop, false); }
      IfElseExactly(s, env, inLoop, top);
    case AFor(_, _, _, body) =>
      LegalExactly(body, env, true, false);
      ForExactly(s, env, inLoop, top);
    case AForeach(lhs, _, _, body) =>
      LegalExactly(body, env, true, false);
      LoopExactly(s, body, Counter(Val(lhs, env)), env, inLoop, top);
    case AWhile(c, body) =>
      LegalExactly(body, env, true, false);
      LoopExactly(s, body, Cnd(Val(c, env)), env, inLoop, top);
    case ARepeatUntil(body, c) =>
      LegalExactly(body, env, true, false);
      LoopExactly(s, body, Cnd(Val(c, env)), env, inLoop, top);
    case _ =>
  }

  /** Pruned or not, the trees of legal programs are made of legal parts at every depth. */
  lemma LegalTrees(b: ABlock, env: Env, inLoop: bool, top: bool)
    requires BlockOk(b, env, inLoop, top)
    ensures AllLegal(Parts(Elab(b, env))) && AllLegal(Parts(Prune(Elab(b, env))))
  {
    LegalExactly(b, env, inLoop, top);
    PruneParts(Elab(b, env));
  }
}
