/** What the semantic trees that the v1x analyser builds contain, at any depth: assignments, conditions, counters and
    gotos, before and after pruning. */
module TreeParts {
  import opened Wrappers
  import opened SemanticTree
  import opened Pruning
  import opened Analysis

  /** An action, a condition, or the counter of a foreach loop. */
  datatype Part = Act(action: Action) | Cnd(v: Value) | Counter(v: Value)

  function Parts(b: Block): set<Part>
    decreases b, 0
  {
    if b == [] then {} else PartsStmt(b[0]) + Parts(b[1..])
  }

  function PartsInsns(insns: seq<Insn>): set<Part> {
    if insns == [] then {} else {Act(insns[0].action), Cnd(insns[0].cond)} + PartsInsns(insns[1..])
  }

  function PartsBranches(branches: seq<Branch>): set<Part>
    decreases branches, 0
  {
    if branches == [] then {} else {Cnd(branches[0].cond)} + Parts(branches[0].body) + PartsBranches(branches[1..])
  }

  function PartsElse(e: Else): set<Part>
    decreases e, 0
  {
    match e case NoElse => {} case Else(b) => Parts(b)
  }

  function PartsOption(a: Option<Action>): set<Part> {
    if a.Some? then {Act(a.value)} else {}
  }

  function PartsStmt(s: Stmt): set<Part>
    decreases s, 1
  {
    match s
    case Bundle(insns) => PartsInsns(insns)
    case IfElse(branches, otherwise) => PartsBranches(branches) + PartsElse(otherwise)
    case For(init, cond, update, body) => PartsOption(init) + {Cnd(cond)} + PartsOption(update) + Parts(body)
    case Foreach(lhs, _, _, body) => {Counter(lhs)} + Parts(body)
    case While(cond, body) => {Cnd(cond)} + Parts(body)
    case RepeatUntil(body, cond) => Parts(body) + {Cnd(cond)}
    case Break => {}
    case Continue => {}
  }

  lemma {:induction false} PartsConcat(a: Block, b: Block)
    ensures Parts(a + b) == Parts(a) + Parts(b)
  {
    if a == [] {
      assert a + b == b;
    } else {
      assert (a + b)[0] == a[0] && (a + b)[1..] == a[1..] + b;
      PartsConcat(a[1..], b);
    }
  }

  lemma PartsOne(s: Stmt)
    ensures Parts([s]) == PartsStmt(s)
  {
    assert [s][0] == s && [s][1..] == [];
  }

  // ----- pruning adds nothing -----

  lemma {:induction false} LiveParts(insns: seq<Insn>)
    ensures PartsInsns(Live(insns)) <= PartsInsns(insns)
  {
    if insns != [] {
      LiveParts(insns[1..]);
      var l := Live(insns[1..]);
      if insns[0].cond == FALSE {
        assert Live(insns) == l;
      } else {
        assert Live(insns)[0] == insns[0] && Live(insns)[1..] == l;
      }
    }
  }

  lemma {:induction false} KeptParts(branches: seq<Branch>, otherwise: Else)
    ensures PartsBranches(Kept(branches)) + PartsElse(Final(branches, otherwise))
      <= PartsBranches(branches) + PartsElse(otherwise)
  {
    if branches != [] {
      KeptParts(branches[1..], otherwise);
      var k := Kept(branches[1..]);
      if branches[0].cond == FALSE {
        assert Kept(branches) == k;
      } else if branches[0].cond != TRUE {
        assert Kept(branches)[0] == branches[0] && Kept(branches)[1..] == k;
      }
    }
  }

  lemma {:induction false} PruneParts(b: Block)
    ensures Parts(Prune(b)) <= Parts(b)
    decreases b, 0
  {
    if b != [] {
      PruneStmtParts(b[0]);
      PruneParts(b[1..]);
      PartsConcat(PruneStmt(b[0]), Prune(b[1..]));
    }
  }

  lemma {:induction false} PruneBodiesParts(branches: seq<Branch>)
    ensures PartsBranches(PruneBodies(branches)) <= PartsBranches(branches)
    decreases branches, 0
  {
    if branches != [] {
      PruneParts(branches[0].body);
      PruneBodiesParts(branches[1..]);
      var p := PruneBodies(branches);
      assert p[0] == Branch(branches[0].cond, Prune(branches[0].body)) && p[1..] == PruneBodies(branches[1..]);
    }
  }

  lemma {:induction false} PruneStmtParts(s: Stmt)
    ensures Parts(PruneStmt(s)) <= PartsStmt(s)
    decreases s, 1
  {
    match s
    case Bundle(insns) =>
      LiveParts(insns);
      if Live(insns) != [] { PartsOne(Bundle(Live(insns))); }
    case IfElse(branches, otherwise) =>
      if otherwise.Else? { PruneParts(otherwise.block); }
      PruneBodiesParts(branches);
      PruneIfParts(PruneBodies(branches), PruneElse(otherwise));
    case For(init, cond, update, body) =>
      PruneParts(body);
      PartsOne(For(init, cond, update, Prune(body)));
    case Foreach(lhs, frm, to, body) =>
      PruneParts(body);
      PartsOne(Foreach(lhs, frm, to, Prune(body)));
    case While(cond, body) =>
      PruneParts(body);
      PartsOne(While(cond, Prune(body)));
    case RepeatUntil(body, cond) =>
      PruneParts(body);
      PartsOne(RepeatUntil(Prune(body), cond));
    case Break => PartsOne(s);
    case Continue => PartsOne(s);
  }

  lemma PruneIfParts(branches: seq<Branch>, otherwise: Else)
    ensures Parts(PruneIf(branches, otherwise)) <= PartsBranches(branches) + PartsElse(otherwise)
  {
    KeptParts(branches, otherwise);
    PartsOne(IfElse(Kept(branches), Final(branches, otherwise)));
  }

  // ----- what a legal program is made of -----

  predicate Boolean(v: Value) {
    match v
    case ConstBool(_) => true
    case ConstInt(_) => false
    case Dynamic(_, boolean, _) => boolean
  }

  /** An assignment is to something that can be assigned, of the kind of its right-hand side; a condition is boolean,
      and a counter an integer that can be assigned. */
  predicate LegalPart(p: Part) {
    match p
    case Act(Set(lhs, rhs)) => lhs.Dynamic? && lhs.assignable && (Boolean(lhs) <==> Boolean(rhs))
    case Act(_) => true
    case Cnd(v) => Boolean(v)
    case Counter(v) => v.Dynamic? && v.assignable && !v.boolean
  }

  predicate AllLegal(parts: set<Part>) {
    forall p :: p in parts ==> LegalPart(p)
  }

  // ----- gotos -----

  lemma {:induction false} InsnGotos(insns: seq<AInsn>, env: Env, t: string)
    ensures Act(Goto(t)) in PartsInsns(ElabInsns(insns, env)) <==> t in InsnTargets(insns)
  {
    if insns != [] {
      InsnGotos(insns[1..], env, t);
      var e := ElabInsns(insns, env);
      assert e[0] == ElabInsn(insns[0], env) && e[1..] == ElabInsns(insns[1..], env);
    }
  }

  /** The targets collected for linking are exactly those of the gotos in the tree. */
  lemma {:induction false} GotosExact(b: ABlock, env: Env, t: string)
    ensures Act(Goto(t)) in Parts(Elab(b, env)) <==> t in Targets(b)
    decreases b, 0
  {
    if b != [] {
      StmtGotos(b[0], env, t);
      GotosExact(b[1..], EnvAfter(b[0], env), t);
      PartsConcat(ElabStmt(b[0], env), Elab(b[1..], EnvAfter(b[0], env)));
    }
  }

  lemma {:induction false} BranchGotos(branches: seq<ABranch>, env: Env, t: string)
    ensures Act(Goto(t)) in PartsBranches(ElabBranches(branches, env)) <==> t in BranchTargets(branches)
    decreases branches, 0
  {
    if branches != [] {
      GotosExact(branches[0].body, env, t);
      BranchGotos(branches[1..], env, t);
      var e := ElabBranches(branches, env);
      assert e[0] == Branch(Val(branches[0].cond, env), Elab(branches[0].body, env));
      assert e[1..] == ElabBranches(branches[1..], env);
    }
  }

  /** The loops, whose bodies hold the gotos. */
  lemma LoopGotos(s: AStmt, body: ABlock, env: Env, t: string)
    requires (s.AForeach? || s.AWhile? || s.ARepeatUntil?) && body == s.body
    requires Act(Goto(t)) in Parts(Elab(body, env)) <==> t in Targets(body)
    ensures Act(Goto(t)) in Parts(ElabStmt(s, env)) <==> t in StmtTargets(s)
  {
    PartsOne(ElabStmt(s, env)[0]);
  }

  lemma ForGotos(s: AStmt, env: Env, t: string)
    requires s.AFor?
    requires Act(Goto(t)) in Parts(Elab(s.body, env)) <==> t in Targets(s.body)
    ensures Act(Goto(t)) in Parts(ElabStmt(s, env)) <==> t in StmtTargets(s)
  {
    PartsOne(ElabStmt(s, env)[0]);
    assert Act(Goto(t)) !in PartsOption(OptAssignment(s.init, env));
    assert Act(Goto(t)) !in PartsOption(OptAssignment(s.update, env));
  }

  lemma {:induction false} StmtGotos(s: AStmt, env: Env, t: string)
    ensures Act(Goto(t)) in Parts(ElabStmt(s, env)) <==> t in StmtTargets(s)
    decreases s, 1
  {
    match s
    case ABundle(insns) =>
      InsnGotos(insns, env, t);
      PartsOne(ElabStmt(s, env)[0]);
    case AIfElse(branches, otherwise) =>
      BranchGotos(branches, env, t);
      if otherwise.AElse? { GotosExact(otherwise.block, env, t); }
      PartsOne(ElabStmt(s, env)[0]);
    case AFor(_, _, _, body) =>
      GotosExact(body, env, t);
      ForGotos(s, env, t);
    case AForeach(_, _, _, body) =>
      GotosExact(body, env, t);
      LoopGotos(s, body, env, t);
    case AWhile(_, body) =>
      GotosExact(body, env, t);
      LoopGotos(s, body, env, t);
    case ARepeatUntil(body, _) =>
      GotosExact(body, env, t);
      LoopGotos(s, body, env, t);
    case ABreak => PartsOne(Break);
    case AContinue => PartsOne(Continue);
    case _ =>
  }

  /** An execution only jumps where a goto says. */
  lemma {:induction false} MayGotos(b: Block, t: string)
    requires Jumps(t) in May(b)
    ensures Act(Goto(t)) in Parts(b)
    decreases b, 0
  {
    if b != [] {
      if Jumps(t) in MayStmt(b[0]) { MayStmtGotos(b[0], t); } else { MayGotos(b[1..], t); }
    }
  }

  lemma {:induction false} MayInsnGotos(insns: seq<Insn>, t: string)
    requires Jumps(t) in MayInsns(insns)
    ensures Act(Goto(t)) in PartsInsns(insns)
  {
    if insns != [] && insns[0].action != Goto(t) { MayInsnGotos(insns[1..], t); }
  }

  lemma {:induction false} MayBranchGotos(branches: seq<Branch>, t: string)
    requires Jumps(t) in MayBranches(branches)
    ensures Act(Goto(t)) in PartsBranches(branches)
    decreases branches, 0
  {
    if Jumps(t) in May(branches[0].body) {
      MayGotos(branches[0].body, t);
    } else {
      MayBranchGotos(branches[1..], t);
    }
  }

  lemma {:induction false} MayStmtGotos(s: Stmt, t: string)
    requires Jumps(t) in MayStmt(s)
    ensures Act(Goto(t)) in PartsStmt(s)
    decreases s, 1
  {
    match s
    case Bundle(insns) => MayInsnGotos(insns, t);
    case IfElse(branches, otherwise) =>
      if Jumps(t) in MayBranches(branches) { MayBranchGotos(branches, t); } else { MayGotos(otherwise.block, t); }
    case For(_, _, _, body) => MayGotos(body, t);
    case Foreach(_, _, _, body) => MayGotos(body, t);
    case While(_, body) => MayGotos(body, t);
    case RepeatUntil(body, _) => MayGotos(body, t);
  }
}
