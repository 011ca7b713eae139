/** Where break and continue stand, before and after the pruning of the v1x analyser: putting the body of a
    repeat-until(true) in the place of the loop may leave one outside of any loop. */
module LoopLegality {
  import opened Wrappers
  import opened SemanticTree
  import opened Pruning
  import opened Analysis

  // ----- break and continue in loops -----

  /** Every break and continue of b stands in a loop; inLoop says whether b itself does. */
  predicate Placed(b: Block, inLoop: bool)
    decreases b, 0
  {
    b == [] || (PlacedStmt(b[0], inLoop) && Placed(b[1..], inLoop))
  }

  predicate PlacedBranches(branches: seq<Branch>, inLoop: bool)
    decreases branches, 0
  {
    branches == [] || (Placed(branches[0].body, inLoop) && PlacedBranches(branches[1..], inLoop))
  }

  predicate PlacedElse(e: Else, inLoop: bool)
    decreases e, 0
  {
    e.Else? ==> Placed(e.block, inLoop)
  }

  predicate PlacedStmt(s: Stmt, inLoop: bool)
    decreases s, 1
  {
    match s
    case Bundle(_) => true
    case IfElse(branches, otherwise) => PlacedBranches(branches, inLoop) && PlacedElse(otherwise, inLoop)
    case For(_, _, _, body) => Placed(body, true)
    case Foreach(_, _, _, body) => Placed(body, true)
    case While(_, body) => Placed(body, true)
    case RepeatUntil(body, _) => Placed(body, true)
    case Break => inLoop
    case Continue => inLoop
  }

  lemma {:induction false} PlacedConcat(a: Block, b: Block, inLoop: bool)
    ensures Placed(a + b, inLoop) <==> Placed(a, inLoop) && Placed(b, inLoop)
  {
    if a == [] {
      assert a + b == b;
    } else {
      assert (a + b)[0] == a[0] && (a + b)[1..] == a[1..] + b;
      PlacedConcat(a[1..], b, inLoop);
    }
  }

  lemma PlacedOne(s: Stmt, inLoop: bool)
    ensures Placed([s], inLoop) <==> PlacedStmt(s, inLoop)
  {
    assert [s][0] == s && [s][1..] == [];
  }

  /** The rules of the analyser see to this. */
  lemma {:induction false} LegalPlaced(b: ABlock, env: Env, inLoop: bool, top: bool)
    requires BlockOk(b, env, inLoop, top)
    ensures Placed(Elab(b, env), inLoop)
    decreases b, 0
  {
    if b != [] {
      LegalPlacedStmt(b[0], env, inLoop, top);
      LegalPlaced(b[1..], EnvAfter(b[0], env), inLoop, top);
      PlacedConcat(ElabStmt(b[0], env), Elab(b[1..], EnvAfter(b[0], env)), inLoop);
    }
  }

  lemma {:induction false} LegalPlacedBranches(branches: seq<ABranch>, env: Env, inLoop: bool)
    requires BranchesOk(branches, env, inLoop)
    ensures PlacedBranches(ElabBranches(branches, env), inLoop)
    decreases branches, 0
  {
    if branches != [] {
      LegalPlaced(branches[0].body, env, inLoop, false);
      LegalPlacedBranches(branches[1..], env, inLoop);
      var e := ElabBranches(branches, env);
      assert e[0].body == Elab(branches[0].body, env) && e[1..] == ElabBranches(branches[1..], env);
    }
  }

  lemma {:induction false} LegalPlacedStmt(s: AStmt, env: Env, inLoop: bool, top: bool)
    requires StmtOk(s, env, inLoop, top)
    ensures Placed(ElabStmt(s, env), inLoop)
    decreases s, 1
  {
    match s
    case ABundle(_) => PlacedOne(ElabStmt(s, env)[0], inLoop);
    case AMapping(_, _) =>
    case ASubcircuit(_, _) =>
    case AIfElse(branches, otherwise) =>
      LegalPlacedBranches(branches, env, inLoop);
      if otherwise.AElse? { LegalPlaced(otherwise.block, env, inLoop, false); }
      PlacedOne(IfElse(ElabBranches(branches, env), ElabElse(otherwise, env)), inLoop);
    case AFor(_, _, _, body) =>
      LegalPlaced(body, env, true, false);
      PlacedOne(ElabStmt(s, env)[0], inLoop);
    case AForeach(_, _, _, body) =>
      LegalPlaced(body, env, true, false);
      PlacedOne(ElabStmt(s, env)[0], inLoop);
    case AWhile(_, body) =>
      LegalPlaced(body, env, true, false);
      PlacedOne(ElabStmt(s, env)[0], inLoop);
    case ARepeatUntil(body, _) =>
      LegalPlaced(body, env, true, false);
      PlacedOne(ElabStmt(s, env)[0], inLoop);
    case ABreak => PlacedOne(Break, inLoop);
    case AContinue => PlacedOne(Continue, inLoop);
  }

  // ----- what escapes -----

  /** Outside of the loops that remain, b has a break or continue, other than in a branch that constant conditions of
      an if-else rule out.  Statements behind one that never ends normally count too: they are not pruned. */
  predicate Escapes(b: Block)
    decreases b, 0
  {
    b != [] && (EscapesStmt(b[0]) || Escapes(b[1..]))
  }

  predicate EscapesBranches(branches: seq<Branch>)
    decreases branches, 0
  {
    if branches == [] then false
    else if branches[0].cond == TRUE then Escapes(branches[0].body)
    else (branches[0].cond != FALSE && Escapes(branches[0].body)) || EscapesBranches(branches[1..])
  }

  predicate EscapesElse(e: Else)
    decreases e, 0
  {
    e.Else? && Escapes(e.block)
  }

  predicate EscapesStmt(s: Stmt)
    decreases s, 1
  {
    match s
    case IfElse(branches, otherwise) =>
      EscapesBranches(branches) || (!Exhaustive(branches) && EscapesElse(otherwise))
    case RepeatUntil(body, cond) => cond == TRUE && Escapes(body)
    case Break => true
    case Continue => true
    case _ => false
  }

  /** Every repeat-until(true) that stands outside of a loop, other than in a branch that constant conditions of an
      if-else rule out, lets no break and no continue escape. */
  predicate Sealed(b: Block)
    decreases b, 0
  {
    b == [] || (SealedStmt(b[0]) && Sealed(b[1..]))
  }

  predicate SealedBranches(branches: seq<Branch>)
    decreases branches, 0
  {
    if branches == [] then true
    else if branches[0].cond == TRUE then Sealed(branches[0].body)
    else (branches[0].cond != FALSE ==> Sealed(branches[0].body)) && SealedBranches(branches[1..])
  }

  predicate SealedElse(e: Else)
    decreases e, 0
  {
    e.Else? ==> Sealed(e.block)
  }

  predicate SealedStmt(s: Stmt)
    decreases s, 1
  {
    match s
    case IfElse(branches, otherwise) => SealedBranches(branches) && (!Exhaustive(branches) ==> SealedElse(otherwise))
    case RepeatUntil(body, cond) => cond == TRUE ==> !Escapes(body)
    case _ => true
  }

  // ----- pruning -----

  /** Where everything stands in loops before, only the body of a repeat-until(true) can let something escape. */
  lemma {:induction false} EscapesSealed(b: Block)
    requires Placed(b, false)
    ensures Escapes(b) <==> !Sealed(b)
    decreases b, 0
  {
    if b != [] {
      EscapesSealedStmt(b[0]);
      EscapesSealed(b[1..]);
    }
  }

  lemma {:induction false} EscapesSealedBranches(branches: seq<Branch>)
    requires PlacedBranches(branches, false)
    ensures EscapesBranches(branches) <==> !SealedBranches(branches)
    decreases branches, 0
  {
    if branches != [] {
      EscapesSealed(branches[0].body);
      EscapesSealedBranches(branches[1..]);
    }
  }

  lemma {:induction false} EscapesSealedStmt(s: Stmt)
    requires PlacedStmt(s, false)
    ensures EscapesStmt(s) <==> !SealedStmt(s)
    decreases s, 1
  {
    match s
    case IfElse(branches, otherwise) =>
      EscapesSealedBranches(branches);
      if otherwise.Else? { EscapesSealed(otherwise.block); }
    case _ =>
  }

  /** In a loop nothing is out of place, ... */
  lemma {:induction false} PrunePlacedInLoop(b: Block)
    requires Placed(b, true)
    ensures Placed(Prune(b), true)
    decreases b, 0
  {
    if b != [] {
      PrunePlacedInLoopStmt(b[0]);
      PrunePlacedInLoop(b[1..]);
      PlacedConcat(PruneStmt(b[0]), Prune(b[1..]), true);
    }
  }

  lemma {:induction false} PruneBranchesInLoop(branches: seq<Branch>, otherwise: Else)
    requires PlacedBranches(branches, true) && PlacedElse(otherwise, true)
    ensures PlacedBranches(Kept(PruneBodies(branches)), true)
    ensures PlacedElse(Final(PruneBodies(branches), otherwise), true)
    decreases branches, 0
  {
    if branches != [] {
      PrunePlacedInLoop(branches[0].body);
      PruneBranchesInLoop(branches[1..], otherwise);
      KeptCons(branches, otherwise);
    }
  }

  lemma KeptCons(branches: seq<Branch>, otherwise: Else)
    requires branches != []
    ensures var b, p := Branch(branches[0].cond, Prune(branches[0].body)), PruneBodies(branches[1..]);
      Kept(PruneBodies(branches)) ==
      if b.cond == TRUE then [] else if b.cond == FALSE then Kept(p) else [b] + Kept(p)
    ensures var b, p := Branch(branches[0].cond, Prune(branches[0].body)), PruneBodies(branches[1..]);
      Final(PruneBodies(branches), otherwise) == if b.cond == TRUE then Else(b.body) else Final(p, otherwise)
  {
    var p := PruneBodies(branches);
    assert p[0] == Branch(branches[0].cond, Prune(branches[0].body)) && p[1..] == PruneBodies(branches[1..]);
    assert [] + Kept(p[1..]) == Kept(p[1..]);
  }

  lemma {:induction false} PrunePlacedInLoopStmt(s: Stmt)
    requires PlacedStmt(s, true)
    ensures Placed(PruneStmt(s), true)
    decreases s, 1
  {
    match s
    case Bundle(insns) => if Live(insns) != [] { PlacedOne(Bundle(Live(insns)), true); }
    case IfElse(branches, otherwise) =>
      if otherwise.Else? { PrunePlacedInLoop(otherwise.block); }
      PruneBranchesInLoop(branches, PruneElse(otherwise));
      PlacedOne(IfElse(Kept(PruneBodies(branches)), Final(PruneBodies(branches), PruneElse(otherwise))), true);
    case For(init, cond, update, body) =>
      PrunePlacedInLoop(body);
      PlacedOne(For(init, cond, update, Prune(body)), true);
    case Foreach(lhs, frm, to, body) =>
      PrunePlacedInLoop(body);
      PlacedOne(Foreach(lhs, frm, to, Prune(body)), true);
    case While(cond, body) =>
      PrunePlacedInLoop(body);
      PlacedOne(While(cond, Prune(body)), true);
    case RepeatUntil(body, cond) =>
      PrunePlacedInLoop(body);
      PlacedOne(RepeatUntil(Prune(body), cond), true);
    case Break => PlacedOne(Break, true);
    case Continue => PlacedOne(Continue, true);
  }

  /** ... outside of one, exactly what escapes is. */
  lemma {:induction false} PruneEscapes(b: Block)
    requires Placed(b, true)
    ensures Placed(Prune(b), false) <==> !Escapes(b)
    decreases b, 0
  {
    if b != [] {
      PruneEscapesStmt(b[0]);
      PruneEscapes(b[1..]);
      PlacedConcat(PruneStmt(b[0]), Prune(b[1..]), false);
    }
  }

  lemma ExhaustiveCons(branches: seq<Branch>)
    requires branches != []
    ensures Exhaustive(branches) <==> branches[0].cond == TRUE || Exhaustive(branches[1..])
  {
    if k :| 0 < k < |branches| && branches[k].cond == TRUE { assert branches[1..][k - 1].cond == TRUE; }
    if k :| 0 <= k < |branches[1..]| && branches[1..][k].cond == TRUE { assert branches[k + 1].cond == TRUE; }
  }

  lemma {:induction false} PruneEscapesBranches(branches: seq<Branch>, otherwise: Else)
    requires PlacedBranches(branches, true)
    ensures PlacedBranches(Kept(PruneBodies(branches)), false)
        && PlacedElse(Final(PruneBodies(branches), otherwise), false)
      <==> !EscapesBranches(branches) && (!Exhaustive(branches) ==> PlacedElse(otherwise, false))
    decreases branches, 0
  {
    if branches != [] {
      PruneEscapes(branches[0].body);
      PruneEscapesBranches(branches[1..], otherwise);
      KeptCons(branches, otherwise);
      ExhaustiveCons(branches);
    }
  }

  lemma {:induction false} PruneEscapesStmt(s: Stmt)
    requires PlacedStmt(s, true)
    ensures Placed(PruneStmt(s), false) <==> !EscapesStmt(s)
    decreases s, 1
  {
    match s
    case Bundle(insns) => if Live(insns) != [] { PlacedOne(Bundle(Live(insns)), false); }
    case IfElse(branches, otherwise) =>
      if otherwise.Else? { PruneEscapes(otherwise.block); }
      PruneEscapesBranches(branches, PruneElse(otherwise));
      var p := PruneBodies(branches);
      PlacedOne(IfElse(Kept(p), Final(p, PruneElse(otherwise))), false);
    case For(init, cond, update, body) =>
      PrunePlacedInLoop(body);
      PlacedOne(For(init, cond, update, Prune(body)), false);
    case Foreach(lhs, frm, to, body) =>
      PrunePlacedInLoop(body);
      PlacedOne(Foreach(lhs, frm, to, Prune(body)), false);
    case While(cond, body) =>
      PrunePlacedInLoop(body);
      PlacedOne(While(cond, Prune(body)), false);
    case RepeatUntil(body, cond) =>
      PrunePlacedInLoop(body);
      PlacedOne(RepeatUntil(Prune(body), cond), false);
      PruneEscapes(body);
    case Break => PlacedOne(Break, false);
    case Continue => PlacedOne(Continue, false);
  }

  lemma {:induction false} PlacedMore(b: Block)
    requires Placed(b, false)
    ensures Placed(b, true)
    decreases b, 0
  {
    if b != [] {
      PlacedMoreStmt(b[0]);
      PlacedMore(b[1..]);
    }
  }

  lemma {:induction false} PlacedMoreBranches(branches: seq<Branch>)
    requires PlacedBranches(branches, false)
    ensures PlacedBranches(branches, true)
    decreases branches, 0
  {
    if branches != [] {
      PlacedMore(branches[0].body);
      PlacedMoreBranches(branches[1..]);
    }
  }

  lemma {:induction false} PlacedMoreStmt(s: Stmt)
    requires PlacedStmt(s, false)
    ensures PlacedStmt(s, true)
    decreases s, 1
  {
    match s
    case IfElse(branches, otherwise) =>
      PlacedMoreBranches(branches);
      if otherwise.Else? { PlacedMore(otherwise.block); }
    case _ =>
  }

  /** What the analyser accepts outside of a loop is pruned to a block whose breaks and continues all stand in loops
      exactly if no repeat-until(true) outside of a loop lets one escape. */
  lemma LegalAfterPruning(b: ABlock, env: Env, top: bool)
    requires BlockOk(b, env, false, top)
    ensures Placed(Elab(b, env), false)
    ensures Placed(Prune(Elab(b, env)), false) <==> Sealed(Elab(b, env))
  {
    LegalPlaced(b, env, false, top);
    PlacedMore(Elab(b, env));
    EscapesSealed(Elab(b, env));
    PruneEscapes(Elab(b, env));
  }

  /** repeat { break } until (true) is accepted, and pruned to a break outside of any loop. */
  lemma BreakLeftOver(env: Env)
    ensures var b := [ARepeatUntil([ABreak], Lit(TRUE))];
      BlockOk(b, env, false, true) && Prune(Elab(b, env)) == [Break] && !Placed(Prune(Elab(b, env)), false)
  {
    var s, inner := ARepeatUntil([ABreak], Lit(TRUE)), [ABreak];
    assert inner[0] == ABreak && inner[1..] == [] && [s][0] == s && [s][1..] == [];
    assert StmtOk(ABreak, env, true, false) && BlockOk(inner, env, true, false);
    assert CondOk(Lit(TRUE), env) && StmtOk(s, env, false, true);
    assert BlockOk([s], env, false, true);
    assert Elab(inner, env) == ElabStmt(ABreak, env) + Elab([], env) == [Break];
    var r := RepeatUntil([Break], TRUE);
    assert Elab([s], env) == ElabStmt(s, env) + Elab([], env) == [r];
    assert [Break][1..] == [] && [r][1..] == [] && Prune([Break]) == [Break];
    assert Prune([r]) == PruneStmt(r) + Prune([]) == [Break];
    PlacedOne(Break, false);
    assert !PlacedStmt(Break, false);
  }
}
