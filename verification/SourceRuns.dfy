/** Executing a cQASM 1.2 program as it is written, names being looked up on the way.  The semantic tree that the
    analyser builds, before pruning, runs just like this. */
module SourceRuns {
  import opened Wrappers
  import opened SemanticTree
  import opened Analysis

  // ----- running the source -----

  /** Without a condition an instruction is always executed. */
  function TestGuard(c: Option<Expr>, env: Env, bits: seq<bool>): (Option<bool>, seq<Event>, seq<bool>) {
    match c case None => (Some(true), [], bits) case Some(e) => Test(Val(e, env), bits)
  }

  /** What an instruction does: a gate on its operands in order, or giving the target on the left the value on the
      right. */
  function Effected(i: AInsn, env: Env): Action {
    match i
    case AGate(op, es, _) => Gate(op, seq(|es|, k requires 0 <= k < |es| => Val(es[k], env)))
    case ASet(a, _) => Set(Val(a.lhs, env), Val(a.rhs, env))
    case AGoto(t, _) => Goto(t)
  }

  function RunInsns(insns: seq<AInsn>, env: Env, bits: seq<bool>): Result {
    if insns == [] then Result(Normal, [], bits)
    else
      var (c, t, rest) := TestGuard(insns[0].cond, env, bits);
      match c
      case None => Result(Cut, t, rest)
      case Some(false) => Prefix(t, RunInsns(insns[1..], env, rest))
      case Some(true) =>
        var r := Prefix(t + [Did(Effected(insns[0], env))], RunInsns(insns[1..], env, rest));
        if insns[0].AGoto? && r.sig != Cut then r.(sig := Jumps(insns[0].target)) else r
  }

  /** The values of a foreach counter, from the first bound to the second. */
  function Counted(frm: int, to: int): (r: seq<int>)
    ensures |r| == Passes(frm, to) && r[0] == frm && r[|r| - 1] == to
  {
    seq(Passes(frm, to), k requires 0 <= k < Passes(frm, to) => if frm <= to then frm + k else frm - k)
  }

  function Assigning(a: Option<Assign>, env: Env): seq<Event> {
    match a case None => [] case Some(x) => [Did(Set(Val(x.lhs, env), Val(x.rhs, env)))]
  }

  /** A mapping holds to the end of its block. */
  function RunSource(b: ABlock, env: Env, bits: seq<bool>, fuel: nat): Result
    decreases fuel, b, 0
  {
    if b == [] then Result(Normal, [], bits)
    else
      var r := RunStmt(b[0], env, bits, fuel);
      if r.sig != Normal then r else Prefix(r.trace, RunSource(b[1..], EnvAfter(b[0], env), r.bits, fuel))
  }

  function RunStmt(s: AStmt, env: Env, bits: seq<bool>, fuel: nat): Result
    decreases fuel, s, 1, 0
  {
    match s
    case ABundle(insns) => RunInsns(insns, env, bits)
    case AMapping(_, _) => Result(Normal, [], bits)
    case ASubcircuit(_, _) => Result(Normal, [], bits)
    case AIfElse(_, _) => RunBranches(s, 0, env, bits, fuel)
    case AFor(init, _, _, _) => Prefix(Assigning(init, env), RunLoop(s, env, bits, fuel))
    case AForeach(_, frm, to, _) => RunSteps(s, Counted(IntVal(frm, env), IntVal(to, env)), env, bits, fuel)
    case AWhile(_, _) => RunLoop(s, env, bits, fuel)
    case ARepeatUntil(body, cond) =>
      var r := RunSource(body, env, bits, fuel);
      if r.sig == Breaks then r.(sig := Normal)
      else if r.sig.Jumps? || r.sig == Cut then r
      else
        var (c, t, rest) := Test(Val(cond, env), r.bits);
        if c.None? || (!c.value && fuel == 0) then Result(Cut, r.trace + t, rest)
        else if c.value then Result(Normal, r.trace + t, rest)
        else Prefix(r.trace + t, RunStmt(s, env, rest, fuel - 1))
    case ABreak => Result(Breaks, [], bits)
    case AContinue => Result(Continues, [], bits)
  }

  /** The branches from k on: the first whose condition holds, or else the otherwise block. */
  function RunBranches(s: AStmt, k: nat, env: Env, bits: seq<bool>, fuel: nat): Result
    requires s.AIfElse? && k <= |s.branches|
    decreases fuel, s, 0, |s.branches| - k
  {
    if k == |s.branches| then
      match s.otherwise case ANoElse => Result(Normal, [], bits) case AElse(b) => RunSource(b, env, bits, fuel)
    else
      var (c, t, rest) := Test(Val(s.branches[k].cond, env), bits);
      match c
      case None => Result(Cut, t, rest)
      case Some(true) => Prefix(t, RunSource(s.branches[k].body, env, rest, fuel))
      case Some(false) => Prefix(t, RunBranches(s, k + 1, env, rest, fuel))
  }

  /** A while loop, or a for loop behind its first assignment, with the other one after every pass. */
  function RunLoop(s: AStmt, env: Env, bits: seq<bool>, fuel: nat): Result
    requires s.AWhile? || s.AFor?
    decreases fuel, s, 0, 0
  {
    var (c, t, rest) := Test(Val(s.cond, env), bits);
    match c
    case None => Result(Cut, t, rest)
    case Some(false) => Result(Normal, t, rest)
    case Some(true) =>
      var r := Prefix(t, RunSource(s.body, env, rest, fuel));
      if r.sig == Breaks then r.(sig := Normal)
      else if r.sig.Jumps? || r.sig == Cut then r
      else
        var u := if s.AFor? then Assigning(s.update, env) else [];
        if fuel == 0 then Result(Cut, r.trace + u, r.bits) else Prefix(r.trace + u, RunLoop(s, env, r.bits, fuel - 1))
  }

  /** The passes of a foreach loop for these values of its counter. */
  function RunSteps(s: AStmt, counts: seq<int>, env: Env, bits: seq<bool>, fuel: nat): Result
    requires s.AForeach?
    decreases fuel, s, 0, |counts|
  {
    if counts == [] then Result(Normal, [], bits)
    else
      var r := Prefix([Stepped(Val(s.lhs, env), counts[0])], RunSource(s.body, env, bits, fuel));
      if r.sig == Breaks then r.(sig := Normal)
      else if r.sig.Jumps? || r.sig == Cut then r
      else Prefix(r.trace, RunSteps(s, counts[1..], env, r.bits, fuel))
  }

  // ----- the semantic tree runs like the source -----

  lemma {:induction false} ValsInOrder(es: seq<Expr>, env: Env)
    ensures Vals(es, env) == seq(|es|, k requires 0 <= k < |es| => Val(es[k], env))
  {
    if es != [] { ValsInOrder(es[1..], env); }
  }

  lemma {:induction false} InsnsRun(insns: seq<AInsn>, env: Env, bits: seq<bool>)
    ensures ExecInsns(ElabInsns(insns, env), bits) == RunInsns(insns, env, bits)
  {
    if insns != [] {
      var i, e := insns[0], ElabInsns(insns, env);
      assert e[0] == ElabInsn(i, env) && e[1..] == ElabInsns(insns[1..], env);
      if i.AGate? { ValsInOrder(i.operands, env); }
      assert e[0].action == Effected(i, env) && Test(e[0].cond, bits) == TestGuard(i.cond, env, bits);
      InsnsRun(insns[1..], env, TestGuard(i.cond, env, bits).2);
    }
  }

  /** Whatever the tests say and however often loops may come back: the tree of a block runs like the block. */
  lemma {:induction false} ElabRuns(b: ABlock, env: Env, bits: seq<bool>, fuel: nat)
    ensures Exec(Elab(b, env), bits, fuel) == RunSource(b, env, bits, fuel)
    decreases fuel, b, 0
  {
    if b != [] {
      ElabStmtRuns(b[0], env, bits, fuel);
      var r := RunStmt(b[0], env, bits, fuel);
      ExecConcat(ElabStmt(b[0], env), Elab(b[1..], EnvAfter(b[0], env)), bits, fuel);
      if r.sig == Normal { ElabRuns(b[1..], EnvAfter(b[0], env), r.bits, fuel); }
    }
  }

  lemma {:induction false} ElabStmtRuns(s: AStmt, env: Env, bits: seq<bool>, fuel: nat)
    ensures Exec(ElabStmt(s, env), bits, fuel) == RunStmt(s, env, bits, fuel)
    decreases fuel, s, 2, 0
  {
    var out := ElabStmt(s, env);
    if out != [] { ExecOne(out[0], bits, fuel); }
    match s
    case ABundle(insns) => InsnsRun(insns, env, bits);
    case AIfElse(branches, _) =>
      assert branches[0..] == branches;
      BranchesRun(s, 0, env, bits, fuel);
    case AFor(_, _, _, _) => LoopRuns(out[0], s, env, bits, fuel);
    case AForeach(_, _, _, _) => StepsRun(out[0], s, Counted(IntVal(s.frm, env), IntVal(s.to, env)), env, bits, fuel);
    case AWhile(_, _) => LoopRuns(out[0], s, env, bits, fuel);
    case ARepeatUntil(_, _) => RepeatRuns(s, env, bits, fuel);
    case _ =>
  }

  predicate GoesOn(r: Result) {
    r.sig == Normal || r.sig == Continues
  }

  /** One pass of a repeat loop: if the bodies run alike and the loops do from there, they do from here. */
  lemma RepeatPass(w: Stmt, s: AStmt, env: Env, bits: seq<bool>, fuel: nat)
    requires s.ARepeatUntil? && w.RepeatUntil? && w.cond == Val(s.cond, env)
    requires Exec(w.body, bits, fuel) == RunSource(s.body, env, bits, fuel)
    requires var r := RunSource(s.body, env, bits, fuel);
      var rest := Test(w.cond, r.bits).2;
      GoesOn(r) && fuel > 0 ==> ExecStmt(w, rest, fuel - 1) == RunStmt(s, env, rest, fuel - 1)
    ensures ExecStmt(w, bits, fuel) == RunStmt(s, env, bits, fuel)
  {
  }

  lemma {:induction false} RepeatRuns(s: AStmt, env: Env, bits: seq<bool>, fuel: nat)
    requires s.ARepeatUntil?
    ensures ExecStmt(RepeatUntil(Elab(s.body, env), Val(s.cond, env)), bits, fuel) == RunStmt(s, env, bits, fuel)
    decreases fuel, s, 1, 0
  {
    ElabRuns(s.body, env, bits, fuel);
    var r := RunSource(s.body, env, bits, fuel);
    if GoesOn(r) && fuel > 0 { RepeatRuns(s, env, Test(Val(s.cond, env), r.bits).2, fuel - 1); }
    RepeatPass(RepeatUntil(Elab(s.body, env), Val(s.cond, env)), s, env, bits, fuel);
  }

  /** The head of w says what that of s does. */
  predicate SameLoop(w: Stmt, s: AStmt, env: Env) {
    match s
    case AWhile(c, _) => w.While? && w.cond == Val(c, env)
    case AFor(_, c, update, _) => w.For? && w.cond == Val(c, env) && Assigned(w.update) == Assigning(update, env)
    case _ => false
  }

  lemma LoopPass(w: Stmt, s: AStmt, env: Env, bits: seq<bool>, fuel: nat)
    requires SameLoop(w, s, env)
    requires var (c, _, rest) := Test(w.cond, bits);
      c == Some(true) ==> Exec(w.body, rest, fuel) == RunSource(s.body, env, rest, fuel)
    requires var (c, _, rest) := Test(w.cond, bits);
      var r := RunSource(s.body, env, rest, fuel);
      c == Some(true) && GoesOn(r) && fuel > 0 ==> Loop(w, r.bits, fuel - 1) == RunLoop(s, env, r.bits, fuel - 1)
    ensures Loop(w, bits, fuel) == RunLoop(s, env, bits, fuel)
  {
  }

  lemma {:induction false} LoopRuns(w: Stmt, s: AStmt, env: Env, bits: seq<bool>, fuel: nat)
    requires SameLoop(w, s, env) && w.body == Elab(s.body, env)
    ensures Loop(w, bits, fuel) == RunLoop(s, env, bits, fuel)
    decreases fuel, s, 1, 0
  {
    var rest := Test(w.cond, bits).2;
    ElabRuns(s.body, env, rest, fuel);
    var r := RunSource(s.body, env, rest, fuel);
    if GoesOn(r) && fuel > 0 { LoopRuns(w, s, env, r.bits, fuel - 1); }
    LoopPass(w, s, env, bits, fuel);
  }

  /** The value of the counter in the pass that leaves n - 1. */
  function CounterAt(w: Stmt, n: nat): int
    requires w.Foreach?
  {
    if w.frm <= w.to then w.to - n + 1 else w.to + n - 1
  }

  lemma StepPass(w: Stmt, s: AStmt, counts: seq<int>, env: Env, bits: seq<bool>, fuel: nat)
    requires s.AForeach? && w.Foreach? && w.lhs == Val(s.lhs, env)
    requires counts != [] && counts[0] == CounterAt(w, |counts|)
    requires Exec(w.body, bits, fuel) == RunSource(s.body, env, bits, fuel)
    requires var r := RunSource(s.body, env, bits, fuel);
      GoesOn(r) ==> Steps(w, |counts| - 1, r.bits, fuel) == RunSteps(s, counts[1..], env, r.bits, fuel)
    ensures Steps(w, |counts|, bits, fuel) == RunSteps(s, counts, env, bits, fuel)
  {
  }

  /** The passes that are left. */
  lemma {:induction false} StepsRun(w: Stmt, s: AStmt, counts: seq<int>, env: Env, bits: seq<bool>, fuel: nat)
    requires s.AForeach? && w.Foreach? && w.lhs == Val(s.lhs, env) && w.body == Elab(s.body, env)
    requires forall k :: 0 <= k < |counts| ==> counts[k] == CounterAt(w, |counts| - k)
    ensures Steps(w, |counts|, bits, fuel) == RunSteps(s, counts, env, bits, fuel)
    decreases fuel, s, 1, |counts|
  {
    if counts != [] {
      ElabRuns(s.body, env, bits, fuel);
      StepsRun(w, s, counts[1..], env, RunSource(s.body, env, bits, fuel).bits, fuel);
      StepPass(w, s, counts, env, bits, fuel);
    }
  }

  /** The first branch of an if-else, if the others run alike. */
  lemma BranchPass(branches: seq<Branch>, otherwise: Else, s: AStmt, k: nat, env: Env, bits: seq<bool>, fuel: nat)
    requires s.AIfElse? && k < |s.branches| && branches != [] && branches[0].cond == Val(s.branches[k].cond, env)
    requires var rest := Test(branches[0].cond, bits).2;
      && Exec(branches[0].body, rest, fuel) == RunSource(s.branches[k].body, env, rest, fuel)
      && ExecStmt(IfElse(branches[1..], otherwise), rest, fuel) == RunBranches(s, k + 1, env, rest, fuel)
    ensures ExecStmt(IfElse(branches, otherwise), bits, fuel) == RunBranches(s, k, env, bits, fuel)
  {
    var (c, t, rest) := Test(branches[0].cond, bits);
    if c == Some(false) {
      var (b, t', rest') := Choose(branches[1..], otherwise, rest);
      if b.Some? && b.value != [] { ConcatAssoc(t, t', Exec(b.value, rest', fuel).trace); }
    } else if c == Some(true) && branches[0].body == [] {
      assert t + [] == t;
    }
  }

  lemma {:induction false} BranchesRun(s: AStmt, k: nat, env: Env, bits: seq<bool>, fuel: nat)
    requires s.AIfElse? && k <= |s.branches|
    ensures ExecStmt(IfElse(ElabBranches(s.branches[k..], env), ElabElse(s.otherwise, env)), bits, fuel)
      == RunBranches(s, k, env, bits, fuel)
    decreases fuel, s, 1, |s.branches| - k
  {
    if k == |s.branches| {
      OtherwiseRuns(s, env, bits, fuel);
    } else {
      var rest := Test(Val(s.branches[k].cond, env), bits).2;
      ElabRuns(s.branches[k].body, env, rest, fuel);
      BranchesRun(s, k + 1, env, rest, fuel);
      ElabBranchesAt(s.branches, k, env);
      BranchPass(ElabBranches(s.branches[k..], env), ElabElse(s.otherwise, env), s, k, env, bits, fuel);
    }
  }

  lemma {:induction false} OtherwiseRuns(s: AStmt, env: Env, bits: seq<bool>, fuel: nat)
    requires s.AIfElse?
    ensures ExecStmt(IfElse([], ElabElse(s.otherwise, env)), bits, fuel)
      == RunBranches(s, |s.branches|, env, bits, fuel)
    decreases fuel, s, 0, 0
  {
    if s.otherwise.AElse? {
      ElabRuns(s.otherwise.block, env, bits, fuel);
      var r := Exec(Elab(s.otherwise.block, env), bits, fuel);
      assert [] + r.trace == r.trace;
    }
  }

  lemma ElabBranchesAt(branches: seq<ABranch>, k: nat, env: Env)
    requires k < |branches|
    ensures var e := ElabBranches(branches[k..], env);
      && e != [] && e[0] == Branch(Val(branches[k].cond, env), Elab(branches[k].body, env))
      && e[1..] == ElabBranches(branches[k + 1..], env)
  {
    assert branches[k..][0] == branches[k] && branches[k..][1..] == branches[k + 1..];
  }

  // ----- counting -----

  /** A foreach loop begins with its first bound. */
  lemma ForeachBegins(s: AStmt, env: Env, bits: seq<bool>, fuel: nat, n: int)
    requires s.AForeach? && Resolve(s.frm, env) == Some(ConstInt(n))
    ensures var t := Exec(ElabStmt(s, env), bits, fuel).trace; t != [] && t[0] == Stepped(Val(s.lhs, env), n)
  {
    ElabStmtRuns(s, env, bits, fuel);
    var counts := Counted(IntVal(s.frm, env), IntVal(s.to, env));
    var r := Prefix([Stepped(Val(s.lhs, env), counts[0])], RunSource(s.body, env, bits, fuel));
    assert r.trace[0] == Stepped(Val(s.lhs, env), n);
  }

  /** If nothing happens in its body, it counts to the second one and ends. */
  lemma {:induction false} CountsAll(s: AStmt, counts: seq<int>, env: Env, bits: seq<bool>, fuel: nat)
    requires s.AForeach? && s.body == []
    ensures RunSteps(s, counts, env, bits, fuel)
      == Result(Normal, seq(|counts|, k requires 0 <= k < |counts| => Stepped(Val(s.lhs, env), counts[k])), bits)
    decreases |counts|
  {
    if counts != [] {
      CountsAll(s, counts[1..], env, bits, fuel);
      var x, t := Stepped(Val(s.lhs, env), counts[0]), RunSteps(s, counts[1..], env, bits, fuel).trace;
      assert [x] + [] == [x] && RunSteps(s, counts, env, bits, fuel).trace == [x] + t;
    }
  }

  lemma ForeachCounts(s: AStmt, env: Env, bits: seq<bool>, fuel: nat, m: int, n: int)
    requires s.AForeach? && s.body == []
    requires Resolve(s.frm, env) == Some(ConstInt(m)) && Resolve(s.to, env) == Some(ConstInt(n))
    ensures var r, x := Exec(ElabStmt(s, env), bits, fuel), Val(s.lhs, env);
      && r.sig == Normal && |r.trace| == (if m <= n then n - m else m - n) + 1
      && r.trace[0] == Stepped(x, m) && r.trace[|r.trace| - 1] == Stepped(x, n)
  {
    ElabStmtRuns(s, env, bits, fuel);
    CountsAll(s, Counted(m, n), env, bits, fuel);
  }
}
