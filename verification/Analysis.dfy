/** What the v1x analyser makes of a cQASM 1.2 program: the syntax tree, the rules it enforces, and the
    semantic tree that lexical name resolution gives. */
module Analysis {
  import opened Wrappers
  import opened SemanticTree
  import opened Pruning

  // ----- the syntax tree -----

  /** A literal stands for any expression already folded; a name is looked up in the current scope. */
  datatype Expr = Lit(v: Value) | Name(name: string)

  datatype AInsn =
    | AGate(op: nat, operands: seq<Expr>, cond: Option<Expr>)
    | ASet(assign: Assign, cond: Option<Expr>)
    | AGoto(target: string, cond: Option<Expr>)

  datatype Assign = Assign(lhs: Expr, rhs: Expr)

  datatype AStmt =
    | ABundle(insns: seq<AInsn>)
    | AMapping(name: string, expr: Expr)
    | ASubcircuit(name: string, iterations: Option<Expr>)
    | AIfElse(branches: seq<ABranch>, otherwise: AElse)
    | AFor(init: Option<Assign>, cond: Expr, update: Option<Assign>, body: ABlock)
    | AForeach(lhs: Expr, frm: Expr, to: Expr, body: ABlock)
    | AWhile(cond: Expr, body: ABlock)
    | ARepeatUntil(body: ABlock, cond: Expr)
    | ABreak
    | AContinue

  type ABlock = seq<AStmt>

  datatype ABranch = ABranch(cond: Expr, body: ABlock)
  datatype AElse = ANoElse | AElse(block: ABlock)

  // ----- names -----

  type Env = map<string, Value>

  function LowerLetter(c: char): char {
    if 'A' <= c <= 'Z' then (c as int + 32) as char else c
  }

  /** Mappings are added and found regardless of case. */
  function Lower(s: string): string {
    if s == "" then "" else [LowerLetter(s[0])] + Lower(s[1..])
  }

  /** The same letter, in whatever case. */
  predicate SameLetter(a: char, b: char) {
    a == b || (a as int + 32 == b as int && 'A' <= a <= 'Z') || (b as int + 32 == a as int && 'A' <= b <= 'Z')
  }

  lemma LowerLetterSame(a: char, b: char)
    ensures LowerLetter(a) == LowerLetter(b) <==> SameLetter(a, b)
  {
  }

  lemma {:induction false} LowerAt(s: string, k: nat)
    requires k < |s|
    ensures |Lower(s)| == |s| && Lower(s)[k] == LowerLetter(s[k])
  {
    if k > 0 {
      LowerAt(s[1..], k - 1);
    } else if |s| > 1 {
      LowerAt(s[1..], 0);
    }
  }

  /** Two names are found to be the same exactly if they are, letter by letter, in whatever case. */
  lemma LowerSame(s: string, t: string)
    ensures Lower(s) == Lower(t) <==> |s| == |t| && forall k :: 0 <= k < |s| ==> SameLetter(s[k], t[k])
  {
    if |s| > 0 { LowerAt(s, 0); }
    if |t| > 0 { LowerAt(t, 0); }
    if |s| == |t| {
      forall k | 0 <= k < |s| ensures SameLetter(s[k], t[k]) <==> Lower(s)[k] == Lower(t)[k] {
        LowerAt(s, k);
        LowerAt(t, k);
        LowerLetterSame(s[k], t[k]);
      }
    }
  }

  function Resolve(e: Expr, env: Env): Option<Value> {
    match e
    case Lit(v) => Some(v)
    case Name(n) => if Lower(n) in env then Some(env[Lower(n)]) else None
  }

  /** The value of an expression that resolves. */
  function Val(e: Expr, env: Env): Value {
    match Resolve(e, env) case Some(v) => v case None => FALSE
  }

  function EnvAfter(s: AStmt, env: Env): Env {
    if s.AMapping? && Resolve(s.expr, env).Some? then env[Lower(s.name) := Val(s.expr, env)] else env
  }

  function EnvEnd(b: ABlock, env: Env): Env {
    if b == [] then env else EnvEnd(b[1..], EnvAfter(b[0], env))
  }

  // ----- the rules -----

  predicate IsBool(v: Value) {
    v.ConstBool? || (v.Dynamic? && v.boolean)
  }

  predicate CondOk(e: Expr, env: Env) {
    Resolve(e, env).Some? && IsBool(Val(e, env))
  }

  predicate OptCondOk(c: Option<Expr>, env: Env) {
    c.Some? ==> CondOk(c.value, env)
  }

  predicate AssignOk(a: Assign, env: Env) {
    var l, r := Resolve(a.lhs, env), Resolve(a.rhs, env);
    l.Some? && r.Some? && l.value.Dynamic? && l.value.assignable && (IsBool(l.value) <==> IsBool(r.value))
  }

  predicate OptAssignOk(a: Option<Assign>, env: Env) {
    a.Some? ==> AssignOk(a.value, env)
  }

  predicate IntOk(e: Expr, env: Env) {
    Resolve(e, env).Some? && Val(e, env).ConstInt?
  }

  predicate CounterOk(e: Expr, env: Env) {
    Resolve(e, env).Some? && Val(e, env).Dynamic? && !Val(e, env).boolean && Val(e, env).assignable
  }

  predicate OperandsOk(operands: seq<Expr>, env: Env) {
    forall k :: 0 <= k < |operands| ==> Resolve(operands[k], env).Some?
  }

  predicate InsnOk(i: AInsn, env: Env) {
    match i
    case AGate(_, operands, cond) => OperandsOk(operands, env) && OptCondOk(cond, env)
    case ASet(a, cond) => AssignOk(a, env) && OptCondOk(cond, env)
    case AGoto(_, cond) => OptCondOk(cond, env)
  }

  predicate InsnsOk(insns: seq<AInsn>, env: Env) {
    insns == [] || (InsnOk(insns[0], env) && InsnsOk(insns[1..], env))
  }

  /** Conditions are boolean, names resolve, targets of assignments can be assigned, bounds are constant, break
      and continue stand in loops, and subcircuits open at the top with a positive count.  Branches that
      are never taken obey the same rules. */
  predicate StmtOk(s: AStmt, env: Env, inLoop: bool, top: bool)
    decreases s, 1
  {
    match s
    case ABundle(insns) => InsnsOk(insns, env)
    case AMapping(_, e) => Resolve(e, env).Some?
    case ASubcircuit(_, n) => top && (n.Some? ==> IntOk(n.value, env) && Val(n.value, env).n >= 1)
    case AIfElse(branches, otherwise) =>
      BranchesOk(branches, env, inLoop) && (otherwise.AElse? ==> BlockOk(otherwise.block, env, inLoop, false))
    case AFor(init, c, update, body) =>
      OptAssignOk(init, env) && CondOk(c, env) && OptAssignOk(update, env) && BlockOk(body, env, true, false)
    case AForeach(lhs, frm, to, body) =>
      CounterOk(lhs, env) && IntOk(frm, env) && IntOk(to, env) && BlockOk(body, env, true, false)
    case AWhile(c, body) => CondOk(c, env) && BlockOk(body, env, true, false)
    case ARepeatUntil(body, c) => BlockOk(body, env, true, false) && CondOk(c, env)
    case ABreak => inLoop
    case AContinue => inLoop
  }

  predicate BranchesOk(branches: seq<ABranch>, env: Env, inLoop: bool)
    decreases branches, 0
  {
    branches == []
      || (CondOk(branches[0].cond, env) && BlockOk(branches[0].body, env, inLoop, false)
        && BranchesOk(branches[1..], env, inLoop))
  }

  predicate BlockOk(b: ABlock, env: Env, inLoop: bool, top: bool)
    decreases b, 0
  {
    b == [] || (StmtOk(b[0], env, inLoop, top) && BlockOk(b[1..], EnvAfter(b[0], env), inLoop, top))
  }

  // ----- the unpruned program -----

  function Cond(c: Option<Expr>, env: Env): Value {
    if c.Some? then Val(c.value, env) else TRUE
  }

  function Vals(es: seq<Expr>, env: Env): seq<Value> {
    if es == [] then [] else [Val(es[0], env)] + Vals(es[1..], env)
  }

  function Assignment(a: Assign, env: Env): Action {
    Set(Val(a.lhs, env), Val(a.rhs, env))
  }

  function OptAssignment(a: Option<Assign>, env: Env): Option<Action> {
    if a.Some? then Some(Assignment(a.value, env)) else None
  }

  function ElabInsn(i: AInsn, env: Env): Insn {
    match i
    case AGate(op, operands, c) => Insn(Gate(op, Vals(operands, env)), Cond(c, env))
    case ASet(a, c) => Insn(Assignment(a, env), Cond(c, env))
    case AGoto(t, c) => Insn(Goto(t), Cond(c, env))
  }

  function ElabInsns(insns: seq<AInsn>, env: Env): seq<Insn> {
    if insns == [] then [] else [ElabInsn(insns[0], env)] + ElabInsns(insns[1..], env)
  }

  function IntVal(e: Expr, env: Env): int {
    if Val(e, env).ConstInt? then Val(e, env).n else 0
  }

  /** Names give way to their values; a mapping holds to the end of its block. */
  function Elab(b: ABlock, env: Env): Block
    decreases b, 0
  {
    if b == [] then [] else ElabStmt(b[0], env) + Elab(b[1..], EnvAfter(b[0], env))
  }

  function ElabBranches(branches: seq<ABranch>, env: Env): seq<Branch>
    decreases branches, 0
  {
    if branches == [] then []
    else [Branch(Val(branches[0].cond, env), Elab(branches[0].body, env))] + ElabBranches(branches[1..], env)
  }

  function ElabElse(e: AElse, env: Env): Else
    decreases e, 0
  {
    match e case ANoElse => NoElse case AElse(b) => Else(Elab(b, env))
  }

  function ElabStmt(s: AStmt, env: Env): Block
    decreases s, 1
  {
    match s
    case ABundle(insns) => [Bundle(ElabInsns(insns, env))]
    case AMapping(_, _) => []
    case ASubcircuit(_, _) => []
    case AIfElse(branches, otherwise) => [IfElse(ElabBranches(branches, env), ElabElse(otherwise, env))]
    case AFor(init, c, update, body) =>
      [For(OptAssignment(init, env), Val(c, env), OptAssignment(update, env), Elab(body, env))]
    case AForeach(lhs, frm, to, body) => [Foreach(Val(lhs, env), IntVal(frm, env), IntVal(to, env), Elab(body, env))]
    case AWhile(c, body) => [While(Val(c, env), Elab(body, env))]
    case ARepeatUntil(body, c) => [RepeatUntil(Elab(body, env), Val(c, env))]
    case ABreak => [Break]
    case AContinue => [Continue]
  }

  // ----- goto targets -----

  function InsnTargets(insns: seq<AInsn>): seq<string> {
    if insns == [] then [] else (if insns[0].AGoto? then [insns[0].target] else []) + InsnTargets(insns[1..])
  }

  /** The targets of all gotos, also of those that are never taken. */
  function Targets(b: ABlock): seq<string>
    decreases b, 0
  {
    if b == [] then [] else StmtTargets(b[0]) + Targets(b[1..])
  }

  function BranchTargets(branches: seq<ABranch>): seq<string>
    decreases branches, 0
  {
    if branches == [] then [] else Targets(branches[0].body) + BranchTargets(branches[1..])
  }

  function ElseTargets(e: AElse): seq<string>
    decreases e, 0
  {
    match e case ANoElse => [] case AElse(b) => Targets(b)
  }

  function StmtTargets(s: AStmt): seq<string>
    decreases s, 1
  {
    match s
    case ABundle(insns) => InsnTargets(insns)
    case AIfElse(branches, otherwise) => BranchTargets(branches) + ElseTargets(otherwise)
    case AFor(_, _, _, body) => Targets(body)
    case AForeach(_, _, _, body) => Targets(body)
    case AWhile(_, body) => Targets(body)
    case ARepeatUntil(body, _) => Targets(body)
    case _ => []
  }

  // ----- subcircuits -----

  datatype Sub = Sub(name: string, iterations: int, body: Block)

  /** Statements go to the last subcircuit; the first one opens a default subcircuit if need be. */
  function AddTo(subs: seq<Sub>, out: Block): seq<Sub> {
    if out == [] then subs
    else if subs == [] then [Sub("", 1, out)]
    else
      var k := |subs| - 1;
      subs[k := subs[k].(body := subs[k].body + out)]
  }

  function Out(prune: bool, s: AStmt, env: Env): Block {
    if prune then Prune(ElabStmt(s, env)) else ElabStmt(s, env)
  }

  /** Where a statement of the program goes. */
  function Place(prune: bool, s: AStmt, env: Env, subs: seq<Sub>): seq<Sub> {
    if s.ASubcircuit? then subs + [Sub(s.name, if s.iterations.Some? then IntVal(s.iterations.value, env) else 1, [])]
    else AddTo(subs, Out(prune, s, env))
  }

  /** The program as a list of subcircuits, pruned or not. */
  function Assemble(prune: bool, b: ABlock, env: Env, subs: seq<Sub>): seq<Sub> {
    if b == [] then subs else Assemble(prune, b[1..], EnvAfter(b[0], env), Place(prune, b[0], env, subs))
  }

  lemma AddToAddTo(subs: seq<Sub>, a: Block, b: Block)
    ensures AddTo(AddTo(subs, a), b) == AddTo(subs, a + b)
  {
    if a == [] {
      assert a + b == b;
    } else if b == [] {
      assert a + b == a;
    } else if subs != [] {
      var k := |subs| - 1;
      assert subs[k].body + (a + b) == (subs[k].body + a) + b;
    }
  }

  /** Inside a block everything goes to the block. */
  lemma {:induction false} AssembleBlock(b: ABlock, env: Env, inLoop: bool, subs: seq<Sub>)
    requires BlockOk(b, env, inLoop, false)
    ensures Assemble(true, b, env, subs) == AddTo(subs, Prune(Elab(b, env)))
  {
    if b != [] {
      AssembleBlock(b[1..], EnvAfter(b[0], env), inLoop, Place(true, b[0], env, subs));
      AddToAddTo(subs, Prune(ElabStmt(b[0], env)), Prune(Elab(b[1..], EnvAfter(b[0], env))));
      PruneConcat(ElabStmt(b[0], env), Elab(b[1..], EnvAfter(b[0], env)));
    }
  }
}
