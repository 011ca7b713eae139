/** The prunings of the v1x analyser, as functions on the semantic tree, and what they do to executions. */
module Pruning {
  import opened Wrappers
  import opened SemanticTree

  const TRUE := ConstBool(true)
  const FALSE := ConstBool(false)

  // ----- the prunings -----

  /** The instructions that are not constant false. */
  function Live(insns: seq<Insn>): seq<Insn> {
    if insns == [] then [] else (if insns[0].cond == FALSE then [] else [insns[0]]) + Live(insns[1..])
  }

  /** The branches that may be taken, up to the first that is constant true. */
  function Kept(branches: seq<Branch>): seq<Branch> {
    if branches == [] || branches[0].cond == TRUE then []
    else (if branches[0].cond == FALSE then [] else [branches[0]]) + Kept(branches[1..])
  }

  /** The otherwise block: that of the first constant true branch, if there is one. */
  function Final(branches: seq<Branch>, otherwise: Else): Else {
    if branches == [] then otherwise
    else if branches[0].cond == TRUE then Else(branches[0].body)
    else Final(branches[1..], otherwise)
  }

  function PruneIf(branches: seq<Branch>, otherwise: Else): Block {
    if Kept(branches) == [] then ElseBlock(Final(branches, otherwise))
    else [IfElse(Kept(branches), Final(branches, otherwise))]
  }

  function Prune(b: Block): Block {
    if b == [] then [] else PruneStmt(b[0]) + Prune(b[1..])
  }

  function PruneBodies(branches: seq<Branch>): seq<Branch> {
    if branches == [] then [] else [Branch(branches[0].cond, Prune(branches[0].body))] + PruneBodies(branches[1..])
  }

  function PruneElse(e: Else): Else {
    match e case NoElse => NoElse case Else(b) => Else(Prune(b))
  }

  function PruneStmt(s: Stmt): Block {
    match s
    case Bundle(insns) => if Live(insns) == [] then [] else [Bundle(Live(insns))]
    case IfElse(branches, otherwise) => PruneIf(PruneBodies(branches), PruneElse(otherwise))
    case For(init, cond, update, body) => [For(init, cond, update, Prune(body))]
    case Foreach(lhs, frm, to, body) => [Foreach(lhs, frm, to, Prune(body))]
    case While(cond, body) => if cond == FALSE then [] else [While(cond, Prune(body))]
    case RepeatUntil(body, cond) => if cond == TRUE then Prune(body) else [RepeatUntil(Prune(body), cond)]
    case Break => [Break]
    case Continue => [Continue]
  }

  lemma {:induction false} PruneConcat(a: Block, b: Block)
    ensures Prune(a + b) == Prune(a) + Prune(b)
  {
    if a == [] {
      assert a + b == b;
    } else {
      assert (a + b)[0] == a[0] && (a + b)[1..] == a[1..] + b;
      PruneConcat(a[1..], b);
      assert PruneStmt(a[0]) + (Prune(a[1..]) + Prune(b)) == (PruneStmt(a[0]) + Prune(a[1..])) + Prune(b);
    }
  }

  // ----- how a block may end -----

  /** The ends that some outcomes of the tests lead to. */
  function May(b: Block): set<Signal> {
    if b == [] then {Normal}
    else if Normal in MayStmt(b[0]) then (MayStmt(b[0]) - {Normal}) + May(b[1..])
    else MayStmt(b[0])
  }

  function MayInsns(insns: seq<Insn>): set<Signal> {
    if insns == [] then {Normal}
    else if !insns[0].action.Goto? || insns[0].cond == FALSE then MayInsns(insns[1..])
    else if insns[0].cond == TRUE then {Jumps(insns[0].action.target)}
    else {Jumps(insns[0].action.target)} + MayInsns(insns[1..])
  }

  function MayBranches(branches: seq<Branch>): set<Signal> {
    if branches == [] then {}
    else if branches[0].cond == FALSE then MayBranches(branches[1..])
    else if branches[0].cond == TRUE then May(branches[0].body)
    else May(branches[0].body) + MayBranches(branches[1..])
  }

  predicate Exhaustive(branches: seq<Branch>) {
    exists k :: 0 <= k < |branches| && branches[k].cond == TRUE
  }

  function MayElse(e: Else): set<Signal> {
    match e case NoElse => {Normal} case Else(b) => May(b)
  }

  /** The ends of a loop that a pass of its body brings about. */
  function Leaving(body: set<Signal>): set<Signal> {
    (body - {Normal, Breaks, Continues}) + (if Breaks in body then {Normal} else {})
  }

  predicate Completes(body: set<Signal>) {
    Normal in body || Continues in body
  }

  function MayStmt(s: Stmt): set<Signal> {
    match s
    case Bundle(insns) => MayInsns(insns)
    case IfElse(branches, otherwise) =>
      MayBranches(branches) + (if Exhaustive(branches) then {} else MayElse(otherwise))
    case For(_, cond, _, body) =>
      (if cond == FALSE then {} else Leaving(May(body))) + (if cond == TRUE then {} else {Normal})
    case Foreach(_, _, _, body) => Leaving(May(body)) + (if Completes(May(body)) then {Normal} else {})
    case While(cond, body) =>
      (if cond == FALSE then {} else Leaving(May(body))) + (if cond == TRUE then {} else {Normal})
    case RepeatUntil(body, cond) =>
      Leaving(May(body)) + (if Completes(May(body)) && cond != FALSE then {Normal} else {})
    case Break => {Breaks}
    case Continue => {Continues}
  }

  /** No execution ends otherwise, ... */
  lemma {:induction false} MayExec(b: Block, bits: seq<bool>, fuel: nat)
    ensures Exec(b, bits, fuel).sig in May(b) + {Cut}
    decreases fuel, b, 0
  {
    if b != [] {
      MayExecStmt(b[0], bits, fuel);
      var r := ExecStmt(b[0], bits, fuel);
      if r.sig == Normal { MayExec(b[1..], r.bits, fuel); }
    }
  }

  lemma {:induction false} MayExecInsns(insns: seq<Insn>, bits: seq<bool>)
    ensures ExecInsns(insns, bits).sig in MayInsns(insns) + {Cut}
  {
    if insns != [] {
      var (c, t, rest) := Test(insns[0].cond, bits);
      MayExecInsns(insns[1..], rest);
    }
  }

  /** The chosen block is one that may be chosen. */
  lemma {:induction false} MayChoose(branches: seq<Branch>, otherwise: Else, bits: seq<bool>)
    ensures var b := Choose(branches, otherwise, bits).0;
      b.Some? ==> May(b.value) <= MayBranches(branches) + (if Exhaustive(branches) then {} else MayElse(otherwise))
  {
    if branches != [] {
      var (c, t, rest) := Test(branches[0].cond, bits);
      MayChoose(branches[1..], otherwise, rest);
      if Exhaustive(branches) && branches[0].cond != TRUE {
        var k :| 0 <= k < |branches| && branches[k].cond == TRUE;
        assert branches[1..][k - 1].cond == TRUE;
      }
    }
  }

  lemma {:induction false} MayExecStmt(s: Stmt, bits: seq<bool>, fuel: nat)
    ensures ExecStmt(s, bits, fuel).sig in MayStmt(s) + {Cut}
    decreases fuel, s, 1, 0
  {
    match s
    case Bundle(insns) => MayExecInsns(insns, bits);
    case IfElse(branches, otherwise) =>
      var (b, t, rest) := Choose(branches, otherwise, bits);
      MayChoose(branches, otherwise, bits);
      if b.Some? && b.value != [] { MayExec(b.value, rest, fuel); }
    case For(_, _, _, _) => MayLoop(s, bits, fuel);
    case Foreach(_, frm, to, _) => MaySteps(s, Passes(frm, to), bits, fuel);
    case While(_, _) => MayLoop(s, bits, fuel);
    case RepeatUntil(body, cond) =>
      MayExec(body, bits, fuel);
      var r := Exec(body, bits, fuel);
      var (c, t, rest) := Test(cond, r.bits);
      if fuel > 0 { MayExecStmt(s, rest, fuel - 1); }
    case Break =>
    case Continue =>
  }

  lemma {:induction false} MayLoop(s: Stmt, bits: seq<bool>, fuel: nat)
    requires s.While? || s.For?
    ensures Loop(s, bits, fuel).sig in MayStmt(s) + {Cut}
    decreases fuel, s, 0, 0
  {
    var (c, t, rest) := Test(s.cond, bits);
    if c == Some(true) {
      MayExec(s.body, rest, fuel);
      var r := Exec(s.body, rest, fuel);
      if (r.sig == Normal || r.sig == Continues) && fuel > 0 { MayLoop(s, r.bits, fuel - 1); }
    }
  }

  lemma {:induction false} MaySteps(s: Stmt, n: nat, bits: seq<bool>, fuel: nat)
    requires s.Foreach?
    ensures Steps(s, n, bits, fuel).sig in MayStmt(s) + {Cut} + (if n == 0 then {Normal} else {})
    decreases fuel, s, 0, n
  {
    if n > 0 {
      MayExec(s.body, bits, fuel);
      MaySteps(s, n - 1, Exec(s.body, bits, fuel).bits, fuel);
    }
  }

  /** ... and outcomes that do not get used change nothing. */
  lemma {:induction false} ExtendExec(b: Block, bits: seq<bool>, more: seq<bool>, fuel: nat)
    ensures var r := Exec(b, bits, fuel); r.sig != Cut ==> Exec(b, bits + more, fuel) == r.(bits := r.bits + more)
    decreases fuel, b, 0
  {
    if b != [] {
      ExtendStmt(b[0], bits, more, fuel);
      var r := ExecStmt(b[0], bits, fuel);
      if r.sig == Normal { ExtendExec(b[1..], r.bits, more, fuel); }
    }
  }

  lemma ExtendTest(v: Value, bits: seq<bool>, more: seq<bool>)
    ensures var (c, t, rest) := Test(v, bits); c.Some? ==> Test(v, bits + more) == (c, t, rest + more)
  {
    if bits != [] { assert (bits + more)[1..] == bits[1..] + more; }
  }

  lemma {:induction false} ExtendInsns(insns: seq<Insn>, bits: seq<bool>, more: seq<bool>)
    ensures var r := ExecInsns(insns, bits); r.sig != Cut ==> ExecInsns(insns, bits + more) == r.(bits := r.bits + more)
  {
    if insns != [] {
      ExtendTest(insns[0].cond, bits, more);
      ExtendInsns(insns[1..], Test(insns[0].cond, bits).2, more);
    }
  }

  lemma {:induction false} ExtendChoose(branches: seq<Branch>, otherwise: Else, bits: seq<bool>, more: seq<bool>)
    ensures var (b, t, rest) := Choose(branches, otherwise, bits); b.Some? ==>
      Choose(branches, otherwise, bits + more) == (b, t, rest + more)
  {
    if branches != [] {
      ExtendTest(branches[0].cond, bits, more);
      ExtendChoose(branches[1..], otherwise, Test(branches[0].cond, bits).2, more);
    }
  }

  lemma {:induction false} ExtendStmt(s: Stmt, bits: seq<bool>, more: seq<bool>, fuel: nat)
    ensures var r := ExecStmt(s, bits, fuel); r.sig != Cut ==>
      ExecStmt(s, bits + more, fuel) == r.(bits := r.bits + more)
    decreases fuel, s, 1, 0
  {
    match s
    case Bundle(insns) => ExtendInsns(insns, bits, more);
    case IfElse(branches, otherwise) =>
      var (b, t, rest) := Choose(branches, otherwise, bits);
      ExtendChoose(branches, otherwise, bits, more);
      if b.Some? && b.value != [] { ExtendExec(b.value, rest, more, fuel); }
    case For(_, _, _, _) => ExtendLoop(s, bits, more, fuel);
    case Foreach(_, frm, to, _) => ExtendSteps(s, Passes(frm, to), bits, more, fuel);
    case While(_, _) => ExtendLoop(s, bits, more, fuel);
    case RepeatUntil(body, cond) =>
      ExtendExec(body, bits, more, fuel);
      var r := Exec(body, bits, fuel);
      ExtendTest(cond, r.bits, more);
      if fuel > 0 { ExtendStmt(s, Test(cond, r.bits).2, more, fuel - 1); }
    case Break =>
    case Continue =>
  }

  lemma {:induction false} ExtendLoop(s: Stmt, bits: seq<bool>, more: seq<bool>, fuel: nat)
    requires s.While? || s.For?
    ensures var r := Loop(s, bits, fuel); r.sig != Cut ==> Loop(s, bits + more, fuel) == r.(bits := r.bits + more)
    decreases fuel, s, 0, 0
  {
    ExtendTest(s.cond, bits, more);
    var rest := Test(s.cond, bits).2;
    ExtendExec(s.body, rest, more, fuel);
    if fuel > 0 { ExtendLoop(s, Exec(s.body, rest, fuel).bits, more, fuel - 1); }
  }

  lemma {:induction false} ExtendSteps(s: Stmt, n: nat, bits: seq<bool>, more: seq<bool>, fuel: nat)
    requires s.Foreach?
    ensures var r := Steps(s, n, bits, fuel); r.sig != Cut ==>
      Steps(s, n, bits + more, fuel) == r.(bits := r.bits + more)
    decreases fuel, s, 0, n
  {
    if n > 0 {
      ExtendExec(s.body, bits, more, fuel);
      ExtendSteps(s, n - 1, Exec(s.body, bits, fuel).bits, more, fuel);
    }
  }

  /** Every end that may be is reached, without any loop coming back. */
  lemma {:induction false} Reach(b: Block, x: Signal) returns (bits: seq<bool>)
    requires x in May(b)
    ensures Exec(b, bits, 0).sig == x && Exec(b, bits, 0).bits == []
    decreases b, 0
  {
    if b == [] {
      bits := [];
    } else if x in MayStmt(b[0]) && x != Normal {
      bits := ReachStmt(b[0], x);
    } else {
      var first := ReachStmt(b[0], Normal);
      var rest := Reach(b[1..], x);
      ExtendStmt(b[0], first, rest, 0);
      bits := first + rest;
      assert [] + rest == rest;
    }
  }

  function Skip(cond: Value, b: bool): seq<bool> {
    if cond.ConstBool? then [] else [b]
  }

  lemma TestSkip(cond: Value, b: bool, rest: seq<bool>)
    requires cond != ConstBool(!b)
    ensures Test(cond, Skip(cond, b) + rest).0 == Some(b) && Test(cond, Skip(cond, b) + rest).2 == rest
  {
    if cond.ConstBool? { assert [] + rest == rest; } else { assert ([b] + rest)[1..] == rest; }
  }

  lemma {:induction false} ReachInsns(insns: seq<Insn>, x: Signal) returns (bits: seq<bool>)
    requires x in MayInsns(insns)
    ensures ExecInsns(insns, bits).sig == x && ExecInsns(insns, bits).bits == []
    decreases insns
  {
    if insns == [] {
      bits := [];
    } else {
      var h := insns[0];
      if h.action.Goto? && h.cond != FALSE && x == Jumps(h.action.target) {
        var rest := AnyInsns(insns[1..]);
        TestSkip(h.cond, true, rest);
        bits := Skip(h.cond, true) + rest;
      } else {
        var rest := ReachInsns(insns[1..], x);
        var taken := h.cond == TRUE;
        TestSkip(h.cond, taken, rest);
        bits := Skip(h.cond, taken) + rest;
      }
    }
  }

  /** Outcomes just enough for a bundle. */
  lemma {:induction false} AnyInsns(insns: seq<Insn>) returns (bits: seq<bool>)
    ensures ExecInsns(insns, bits).sig != Cut && ExecInsns(insns, bits).bits == []
  {
    if insns == [] {
      bits := [];
    } else {
      var rest := AnyInsns(insns[1..]);
      var taken := insns[0].cond == TRUE;
      TestSkip(insns[0].cond, taken, rest);
      bits := Skip(insns[0].cond, taken) + rest;
    }
  }

  /** Outcomes that choose branch k, or the otherwise block. */
  lemma {:induction false} ReachBranch(branches: seq<Branch>, otherwise: Else, k: nat, rest: seq<bool>)
    returns (bits: seq<bool>)
    requires k <= |branches| && (k < |branches| ==> branches[k].cond != FALSE)
    requires forall j :: 0 <= j < k ==> branches[j].cond != TRUE
    ensures Choose(branches, otherwise, bits).0 ==
      Some(if k < |branches| then branches[k].body else ElseBlock(otherwise))
    ensures Choose(branches, otherwise, bits).2 == rest
  {
    if branches == [] {
      bits := rest;
    } else if k == 0 {
      TestSkip(branches[0].cond, true, rest);
      bits := Skip(branches[0].cond, true) + rest;
    } else {
      var bits' := ReachBranch(branches[1..], otherwise, k - 1, rest);
      TestSkip(branches[0].cond, false, bits');
      bits := Skip(branches[0].cond, false) + bits';
    }
  }

  /** The branch through which an end may come. */
  lemma {:induction false} WhichBranch(branches: seq<Branch>, x: Signal) returns (k: nat)
    requires x in MayBranches(branches)
    ensures k < |branches| && branches[k].cond != FALSE && x in May(branches[k].body)
    ensures forall j :: 0 <= j < k ==> branches[j].cond != TRUE
  {
    if branches[0].cond != FALSE && x in May(branches[0].body) {
      k := 0;
    } else {
      var k' := WhichBranch(branches[1..], x);
      k := k' + 1;
      forall j | 0 <= j < k ensures branches[j].cond != TRUE {
        if j > 0 { assert branches[j] == branches[1..][j - 1]; }
      }
    }
  }

  lemma {:induction false} ReachStmt(s: Stmt, x: Signal) returns (bits: seq<bool>)
    requires x in MayStmt(s)
    ensures ExecStmt(s, bits, 0).sig == x && ExecStmt(s, bits, 0).bits == []
    decreases s, 1, 0
  {
    match s
    case Bundle(insns) => bits := ReachInsns(insns, x);
    case IfElse(branches, otherwise) =>
      if x in MayBranches(branches) {
        var k := WhichBranch(branches, x);
        var rest := Reach(branches[k].body, x);
        bits := ReachBranch(branches, otherwise, k, rest);
      } else {
        var rest := [];
        if otherwise.Else? { rest := Reach(otherwise.block, x); }
        bits := ReachBranch(branches, otherwise, |branches|, rest);
      }
    case For(_, _, _, _) => bits := ReachLoop(s, x);
    case While(_, _) => bits := ReachLoop(s, x);
    case Foreach(_, frm, to, body) =>
      if x in Leaving(May(body)) {
        var y := LeavingSignal(May(body), x);
        bits := Reach(body, y);
      } else {
        bits := ReachSteps(s, Passes(frm, to));
      }
    case RepeatUntil(body, cond) =>
      if x in Leaving(May(body)) {
        var y := LeavingSignal(May(body), x);
        bits := Reach(body, y);
      } else {
        var first := Reach(body, if Normal in May(body) then Normal else Continues);
        ExtendExec(body, first, Skip(cond, true), 0);
        TestSkip(cond, true, []);
        bits := first + Skip(cond, true);
        assert [] + Skip(cond, true) == Skip(cond, true) && Skip(cond, true) + [] == Skip(cond, true);
      }
    case Break => bits := [];
    case Continue => bits := [];
  }

  lemma LeavingSignal(body: set<Signal>, x: Signal) returns (y: Signal)
    requires x in Leaving(body)
    ensures y in body && y !in {Normal, Continues} && x == if y == Breaks then Normal else y
  {
    y := if x == Normal then Breaks else x;
  }

  lemma {:induction false} ReachLoop(s: Stmt, x: Signal) returns (bits: seq<bool>)
    requires (s.While? || s.For?) && x in MayStmt(s)
    ensures Loop(s, bits, 0).sig == x && Loop(s, bits, 0).bits == []
    decreases s, 0, 0
  {
    if s.cond != FALSE && x in Leaving(May(s.body)) {
      var y := LeavingSignal(May(s.body), x);
      var rest := Reach(s.body, y);
      TestSkip(s.cond, true, rest);
      bits := Skip(s.cond, true) + rest;
    } else {
      TestSkip(s.cond, false, []);
      bits := Skip(s.cond, false);
      assert bits + [] == bits;
    }
  }

  lemma {:induction false} ReachSteps(s: Stmt, n: nat) returns (bits: seq<bool>)
    requires s.Foreach? && Completes(May(s.body))
    ensures Steps(s, n, bits, 0).sig == Normal && Steps(s, n, bits, 0).bits == []
    decreases s, 0, n
  {
    if n == 0 {
      bits := [];
    } else {
      var first := Reach(s.body, if Normal in May(s.body) then Normal else Continues);
      var rest := ReachSteps(s, n - 1);
      ExtendExec(s.body, first, rest, 0);
      bits := first + rest;
      assert [] + rest == rest;
    }
  }

  // ----- repeat-until(true) -----

  /** b and c run alike, whatever the tests say. */
  ghost predicate Same(b: Block, c: Block) {
    forall bits, fuel :: Exec(b, bits, fuel) == Exec(c, bits, fuel)
  }

  /** Splicing the body of a repeat-until(true) is right exactly when no break or continue can leave it. */
  lemma RepeatOnce(body: Block)
    ensures Same([RepeatUntil(body, TRUE)], body) <==> Breaks !in May(body) && Continues !in May(body)
  {
    var s := RepeatUntil(body, TRUE);
    if Breaks !in May(body) && Continues !in May(body) {
      forall bits, fuel ensures Exec([s], bits, fuel) == Exec(body, bits, fuel) {
        RepeatOnceRuns(body, bits, fuel);
      }
    } else {
      var bits := Reach(body, if Breaks in May(body) then Breaks else Continues);
      ExecOne(s, bits, 0);
      assert Exec([s], bits, 0) != Exec(body, bits, 0);
    }
  }

  lemma RepeatOnceRuns(body: Block, bits: seq<bool>, fuel: nat)
    requires Breaks !in May(body) && Continues !in May(body)
    ensures Exec([RepeatUntil(body, TRUE)], bits, fuel) == Exec(body, bits, fuel)
  {
    ExecOne(RepeatUntil(body, TRUE), bits, fuel);
    MayExec(body, bits, fuel);
    var r := Exec(body, bits, fuel);
    assert r.trace + [] == r.trace;
  }

  // ----- pruning keeps the meaning -----

  predicate GoesOn(r: Result) {
    r.sig == Normal || r.sig == Continues
  }

  /** The same run.  At the end of a pass of a loop it makes no difference whether continue brought it about. */
  predicate Agrees(last: bool, r: Result, r': Result) {
    r == r' || (last && GoesOn(r) && GoesOn(r') && r.trace == r'.trace && r.bits == r'.bits)
  }

  /** Where it may be reached, no break can leave the body of a repeat-until(true), and a continue only if nothing
      follows in the loop around; last says that nothing follows b there. */
  predicate Tame(b: Block, last: bool)
    decreases b, 0
  {
    b == [] || (TameStmt(b[0], last && |b| == 1) && (Normal in MayStmt(b[0]) ==> Tame(b[1..], last)))
  }

  predicate TameBranches(branches: seq<Branch>, last: bool)
    decreases branches, 0
  {
    if branches == [] then true
    else if branches[0].cond == TRUE then Tame(branches[0].body, last)
    else (branches[0].cond != FALSE ==> Tame(branches[0].body, last)) && TameBranches(branches[1..], last)
  }

  predicate TameElse(e: Else, last: bool)
    decreases e, 0
  {
    e.Else? ==> Tame(e.block, last)
  }

  predicate TameStmt(s: Stmt, last: bool)
    decreases s, 1
  {
    match s
    case Bundle(_) => true
    case IfElse(branches, otherwise) =>
      TameBranches(branches, last) && (!Exhaustive(branches) ==> TameElse(otherwise, last))
    case For(_, cond, _, body) => cond != FALSE ==> Tame(body, true)
    case Foreach(_, _, _, body) => Tame(body, true)
    case While(cond, body) => cond != FALSE ==> Tame(body, true)
    case RepeatUntil(body, cond) =>
      if cond == TRUE then Tame(body, last) && Spliceable(body, last) else Tame(body, true)
    case Break => true
    case Continue => true
  }

  predicate Spliceable(body: Block, last: bool) {
    Breaks !in May(body) && (Continues in May(body) ==> last)
  }

  /** The pruned block runs like the block: same tests, same actions, same end. */
  lemma PruneRuns(b: Block, bits: seq<bool>, fuel: nat)
    requires Tame(b, false)
    ensures Exec(Prune(b), bits, fuel) == Exec(b, bits, fuel)
  {
    PruneAgrees(b, false, bits, fuel);
  }

  lemma {:induction false} PruneAgrees(b: Block, last: bool, bits: seq<bool>, fuel: nat)
    requires Tame(b, last)
    ensures Agrees(last, Exec(Prune(b), bits, fuel), Exec(b, bits, fuel))
    decreases fuel, b, 0
  {
    if b != [] {
      PruneStmtAgrees(b[0], last && |b| == 1, bits, fuel);
      var r := ExecStmt(b[0], bits, fuel);
      ExecConcat(PruneStmt(b[0]), Prune(b[1..]), bits, fuel);
      if |b| == 1 {
        var r' := Exec(PruneStmt(b[0]), bits, fuel);
        assert b[1..] == [] && r.trace + [] == r.trace && r'.trace + [] == r'.trace;
      } else if r.sig == Normal {
        MayExecStmt(b[0], bits, fuel);
        PruneAgrees(b[1..], last, r.bits, fuel);
      }
    }
  }

  lemma {:induction false} LiveRuns(insns: seq<Insn>, bits: seq<bool>)
    ensures ExecInsns(Live(insns), bits) == ExecInsns(insns, bits)
  {
    if insns != [] {
      var (c, t, rest) := Test(insns[0].cond, bits);
      LiveRuns(insns[1..], rest);
      var l := Live(insns);
      if insns[0].cond == FALSE {
        assert l == Live(insns[1..]) && [] + ExecInsns(insns[1..], rest).trace == ExecInsns(insns[1..], rest).trace;
      } else {
        assert l[0] == insns[0] && l[1..] == Live(insns[1..]);
      }
    }
  }

  lemma {:induction false} ChoosePruned(branches: seq<Branch>, otherwise: Else, bits: seq<bool>)
    ensures var (b, t, rest) := Choose(branches, otherwise, bits);
      Choose(PruneBodies(branches), PruneElse(otherwise), bits) ==
        (if b.Some? then Some(Prune(b.value)) else None, t, rest)
  {
    if branches != [] {
      var p := PruneBodies(branches);
      assert p[0] == Branch(branches[0].cond, Prune(branches[0].body)) && p[1..] == PruneBodies(branches[1..]);
      ChoosePruned(branches[1..], otherwise, Test(branches[0].cond, bits).2);
    }
  }

  /** Dropping the branches that are never taken leaves the choice as it is. */
  lemma {:induction false} ChooseKept(branches: seq<Branch>, otherwise: Else, bits: seq<bool>)
    ensures Choose(Kept(branches), Final(branches, otherwise), bits) == Choose(branches, otherwise, bits)
  {
    if branches != [] && branches[0].cond != TRUE {
      var (c, t, rest) := Test(branches[0].cond, bits);
      ChooseKept(branches[1..], otherwise, rest);
      var k := Kept(branches);
      if branches[0].cond == FALSE {
        assert k == Kept(branches[1..]);
        assert [] + Choose(branches[1..], otherwise, rest).1 == Choose(branches[1..], otherwise, rest).1;
      } else {
        assert k[0] == branches[0] && k[1..] == Kept(branches[1..]);
      }
    }
  }

  lemma PruneIfRuns(branches: seq<Branch>, otherwise: Else, bits: seq<bool>, fuel: nat)
    ensures Exec(PruneIf(branches, otherwise), bits, fuel) == ExecStmt(IfElse(branches, otherwise), bits, fuel)
  {
    ChooseKept(branches, otherwise, bits);
    var f := Final(branches, otherwise);
    if Kept(branches) == [] {
      assert [] + Exec(ElseBlock(f), bits, fuel).trace == Exec(ElseBlock(f), bits, fuel).trace;
    } else {
      ExecOne(IfElse(Kept(branches), f), bits, fuel);
    }
  }

  /** The block that is chosen may be reached. */
  lemma {:induction false} ChooseTame(branches: seq<Branch>, otherwise: Else, last: bool, bits: seq<bool>)
    requires TameBranches(branches, last) && (!Exhaustive(branches) ==> TameElse(otherwise, last))
    ensures var b := Choose(branches, otherwise, bits).0; b.Some? ==> Tame(b.value, last)
  {
    if branches != [] {
      var (c, t, rest) := Test(branches[0].cond, bits);
      if branches[0].cond != TRUE {
        if Exhaustive(branches) {
          var k :| 0 <= k < |branches| && branches[k].cond == TRUE;
          assert branches[1..][k - 1].cond == TRUE;
        }
        ChooseTame(branches[1..], otherwise, last, rest);
      }
    }
  }

  lemma {:induction false} PruneStmtAgrees(s: Stmt, last: bool, bits: seq<bool>, fuel: nat)
    requires TameStmt(s, last)
    ensures Agrees(last, Exec(PruneStmt(s), bits, fuel), ExecStmt(s, bits, fuel))
    decreases fuel, s, 3, 0
  {
    match s
    case Bundle(insns) =>
      LiveRuns(insns, bits);
      if Live(insns) != [] { ExecOne(Bundle(Live(insns)), bits, fuel); }
    case IfElse(branches, otherwise) =>
      var (b, t, rest) := Choose(branches, otherwise, bits);
      ChooseTame(branches, otherwise, last, bits);
      if b.Some? && b.value != [] { PruneAgrees(b.value, last, rest, fuel); }
      PruneIfAgrees(branches, otherwise, last, bits, fuel);
    case RepeatUntil(body, cond) =>
      if cond == TRUE {
        PruneAgrees(body, last, bits, fuel);
        RepeatOnceAgrees(body, last, bits, fuel);
      } else {
        RepeatRuns(s, RepeatUntil(Prune(body), cond), bits, fuel);
        ExecOne(RepeatUntil(Prune(body), cond), bits, fuel);
      }
    case Break => ExecOne(s, bits, fuel);
    case Continue => ExecOne(s, bits, fuel);
    case _ => PruneLoopRuns(s, last, bits, fuel);
  }

  lemma PruneIfAgrees(branches: seq<Branch>, otherwise: Else, last: bool, bits: seq<bool>, fuel: nat)
    requires var (b, _, rest) := Choose(branches, otherwise, bits);
      b.Some? && b.value != [] ==> Agrees(last, Exec(Prune(b.value), rest, fuel), Exec(b.value, rest, fuel))
    ensures Agrees(last, Exec(PruneStmt(IfElse(branches, otherwise)), bits, fuel),
      ExecStmt(IfElse(branches, otherwise), bits, fuel))
  {
    var (b, t, rest) := Choose(branches, otherwise, bits);
    PruneIfRuns(PruneBodies(branches), PruneElse(otherwise), bits, fuel);
    ChoosePruned(branches, otherwise, bits);
    if b.Some? { EmptyRuns(Prune(b.value), rest, fuel, t); }
  }

  lemma {:induction false} PruneLoopRuns(s: Stmt, last: bool, bits: seq<bool>, fuel: nat)
    requires (s.For? || s.Foreach? || s.While?) && TameStmt(s, last)
    ensures Exec(PruneStmt(s), bits, fuel) == ExecStmt(s, bits, fuel)
    decreases fuel, s, 2, 0
  {
    match s
    case For(init, cond, update, body) =>
      LoopRuns(s, For(init, cond, update, Prune(body)), bits, fuel);
      ExecOne(For(init, cond, update, Prune(body)), bits, fuel);
    case Foreach(lhs, frm, to, body) =>
      StepsRuns(s, Foreach(lhs, frm, to, Prune(body)), Passes(frm, to), bits, fuel);
      ExecOne(Foreach(lhs, frm, to, Prune(body)), bits, fuel);
    case While(cond, body) =>
      LoopRuns(s, While(cond, Prune(body)), bits, fuel);
      ExecOne(While(cond, Prune(body)), bits, fuel);
  }

  lemma RepeatOnceAgrees(body: Block, last: bool, bits: seq<bool>, fuel: nat)
    requires Spliceable(body, last)
    ensures Agrees(last, Exec(body, bits, fuel), ExecStmt(RepeatUntil(body, TRUE), bits, fuel))
  {
    MayExec(body, bits, fuel);
    var r := Exec(body, bits, fuel);
    assert r.trace + [] == r.trace;
  }

  lemma EmptyRuns(b: Block, bits: seq<bool>, fuel: nat, t: seq<Event>)
    ensures b == [] ==> Prefix(t, Exec(b, bits, fuel)) == Result(Normal, t, bits)
  {
    assert t + [] == t;
  }

  /** Loops that differ at most in their bodies. */
  predicate SameHead(s: Stmt, s': Stmt) {
    match s
    case For(init, cond, update, _) => s'.For? && s'.init == init && s'.cond == cond && s'.update == update
    case Foreach(lhs, frm, to, _) => s'.Foreach? && s'.lhs == lhs && s'.frm == frm && s'.to == to
    case While(cond, _) => s'.While? && s'.cond == cond
    case RepeatUntil(_, cond) => s'.RepeatUntil? && s'.cond == cond
    case _ => false
  }

  /** One pass: if the bodies run alike and the loops do from there, they do from here. */
  lemma LoopPass(s: Stmt, s': Stmt, bits: seq<bool>, fuel: nat)
    requires (s.While? || s.For?) && SameHead(s, s')
    requires var (c, _, rest) := Test(s.cond, bits);
      c == Some(true) ==> Agrees(true, Exec(s'.body, rest, fuel), Exec(s.body, rest, fuel))
    requires var (c, _, rest) := Test(s.cond, bits);
      var r := Exec(s.body, rest, fuel);
      c == Some(true) && GoesOn(r) && fuel > 0 ==> Loop(s', r.bits, fuel - 1) == Loop(s, r.bits, fuel - 1)
    ensures Loop(s', bits, fuel) == Loop(s, bits, fuel)
  {
  }

  lemma StepPass(s: Stmt, s': Stmt, n: nat, bits: seq<bool>, fuel: nat)
    requires s.Foreach? && SameHead(s, s') && n > 0
    requires Agrees(true, Exec(s'.body, bits, fuel), Exec(s.body, bits, fuel))
    requires var r := Exec(s.body, bits, fuel);
      GoesOn(r) ==> Steps(s', n - 1, r.bits, fuel) == Steps(s, n - 1, r.bits, fuel)
    ensures Steps(s', n, bits, fuel) == Steps(s, n, bits, fuel)
  {
  }

  lemma RepeatPass(s: Stmt, s': Stmt, bits: seq<bool>, fuel: nat)
    requires s.RepeatUntil? && SameHead(s, s') && Agrees(true, Exec(s'.body, bits, fuel), Exec(s.body, bits, fuel))
    requires var r := Exec(s.body, bits, fuel);
      var (c, _, rest) := Test(s.cond, r.bits);
      GoesOn(r) && c == Some(false) && fuel > 0 ==> ExecStmt(s', rest, fuel - 1) == ExecStmt(s, rest, fuel - 1)
    ensures ExecStmt(s', bits, fuel) == ExecStmt(s, bits, fuel)
  {
  }

  lemma {:induction false} RepeatRuns(s: Stmt, s': Stmt, bits: seq<bool>, fuel: nat)
    requires s.RepeatUntil? && SameHead(s, s') && s'.body == Prune(s.body) && Tame(s.body, true)
    ensures ExecStmt(s', bits, fuel) == ExecStmt(s, bits, fuel)
    decreases fuel, s, 1, 0
  {
    PruneAgrees(s.body, true, bits, fuel);
    var r := Exec(s.body, bits, fuel);
    if GoesOn(r) && fuel > 0 { RepeatRuns(s, s', Test(s.cond, r.bits).2, fuel - 1); }
    RepeatPass(s, s', bits, fuel);
  }

  lemma {:induction false} LoopRuns(s: Stmt, s': Stmt, bits: seq<bool>, fuel: nat)
    requires (s.While? || s.For?) && SameHead(s, s') && s'.body == Prune(s.body)
    requires s.cond != FALSE ==> Tame(s.body, true)
    ensures Loop(s', bits, fuel) == Loop(s, bits, fuel)
    decreases fuel, s, 1, 0
  {
    var rest := Test(s.cond, bits).2;
    if s.cond != FALSE { PruneAgrees(s.body, true, rest, fuel); }
    if fuel > 0 { LoopRuns(s, s', Exec(s.body, rest, fuel).bits, fuel - 1); }
    LoopPass(s, s', bits, fuel);
  }

  lemma {:induction false} StepsRuns(s: Stmt, s': Stmt, n: nat, bits: seq<bool>, fuel: nat)
    requires s.Foreach? && SameHead(s, s') && s'.body == Prune(s.body) && Tame(s.body, true)
    ensures Steps(s', n, bits, fuel) == Steps(s, n, bits, fuel)
    decreases fuel, s, 1, n
  {
    if n > 0 {
      PruneAgrees(s.body, true, bits, fuel);
      StepsRuns(s, s', n - 1, Exec(s.body, bits, fuel).bits, fuel);
      StepPass(s, s', n, bits, fuel);
    }
  }

  /** Pruning removes what can never run: no constant false or empty bundle, branch or while loop is left,
      and no repeat-until(true). */
  predicate Pruned(b: Block) {
    b == [] || (PrunedStmt(b[0]) && Pruned(b[1..]))
  }

  predicate PrunedBranches(branches: seq<Branch>) {
    branches == [] || (!branches[0].cond.ConstBool? && Pruned(branches[0].body) && PrunedBranches(branches[1..]))
  }

  predicate PrunedStmt(s: Stmt) {
    match s
    case Bundle(insns) => insns != [] && forall k :: 0 <= k < |insns| ==> insns[k].cond != FALSE
    case IfElse(branches, otherwise) =>
      branches != [] && PrunedBranches(branches) && (otherwise.Else? ==> Pruned(otherwise.block))
    case For(_, _, _, body) => Pruned(body)
    case Foreach(_, _, _, body) => Pruned(body)
    case While(cond, body) => cond != FALSE && Pruned(body)
    case RepeatUntil(body, cond) => cond != TRUE && Pruned(body)
    case Break => true
    case Continue => true
  }

  lemma {:induction false} PrunedConcat(a: Block, b: Block)
    requires Pruned(a) && Pruned(b)
    ensures Pruned(a + b)
  {
    if a == [] {
      assert a + b == b;
    } else {
      assert (a + b)[0] == a[0] && (a + b)[1..] == a[1..] + b;
      PrunedConcat(a[1..], b);
    }
  }

  lemma PrunedOne(s: Stmt)
    requires PrunedStmt(s)
    ensures Pruned([s])
  {
    assert [s][0] == s && [s][1..] == [];
  }

  lemma {:induction false} LiveLives(insns: seq<Insn>)
    ensures forall k :: 0 <= k < |Live(insns)| ==> Live(insns)[k].cond != FALSE
  {
    if insns != [] { LiveLives(insns[1..]); }
  }

  lemma {:induction false} PruneNormal(b: Block)
    ensures Pruned(Prune(b))
    decreases b, 0
  {
    if b != [] {
      PruneStmtNormal(b[0]);
      PruneNormal(b[1..]);
      PrunedConcat(PruneStmt(b[0]), Prune(b[1..]));
    }
  }

  lemma {:induction false} PruneBranchesNormal(branches: seq<Branch>, otherwise: Else)
    requires otherwise.Else? ==> Pruned(otherwise.block)
    ensures PrunedBranches(Kept(PruneBodies(branches)))
    ensures var f := Final(PruneBodies(branches), otherwise); f.Else? ==> Pruned(f.block)
    decreases branches, 0
  {
    if branches != [] {
      var p := PruneBodies(branches);
      assert p[0] == Branch(branches[0].cond, Prune(branches[0].body)) && p[1..] == PruneBodies(branches[1..]);
      PruneNormal(branches[0].body);
      PruneBranchesNormal(branches[1..], otherwise);
      if p[0].cond == FALSE {
        assert Kept(p) == Kept(p[1..]);
      } else if p[0].cond != TRUE && p[0].cond.ConstBool? {
        assert false;
      } else if p[0].cond != TRUE {
        assert Kept(p)[0] == p[0] && Kept(p)[1..] == Kept(p[1..]);
      }
    }
  }

  lemma {:induction false} PruneStmtNormal(s: Stmt)
    ensures Pruned(PruneStmt(s))
    decreases s, 1
  {
    match s
    case Bundle(insns) =>
      LiveLives(insns);
      if Live(insns) != [] { PrunedOne(Bundle(Live(insns))); }
    case IfElse(branches, otherwise) =>
      if otherwise.Else? { PruneNormal(otherwise.block); }
      PruneBranchesNormal(branches, PruneElse(otherwise));
      var k, f := Kept(PruneBodies(branches)), Final(PruneBodies(branches), PruneElse(otherwise));
      if k != [] { PrunedOne(IfElse(k, f)); }
    case For(init, cond, update, body) =>
      PruneNormal(body);
      PrunedOne(For(init, cond, update, Prune(body)));
    case Foreach(lhs, frm, to, body) =>
      PruneNormal(body);
      PrunedOne(Foreach(lhs, frm, to, Prune(body)));
    case While(cond, body) =>
      PruneNormal(body);
      if cond != FALSE { PrunedOne(While(cond, Prune(body))); }
    case RepeatUntil(body, cond) =>
      PruneNormal(body);
      if cond != TRUE { PrunedOne(RepeatUntil(Prune(body), cond)); }
    case Break => PrunedOne(s);
    case Continue => PrunedOne(s);
  }

  /** What pruning gets wrong without the proviso: in while (x) { repeat { break } until (true); act } the
      break leaves the outer loop once the inner one is gone. */
  lemma BreakEscapes(x: Value, act: Action)
    requires x.Dynamic? && !act.Goto?
    ensures var w := While(x, [RepeatUntil([Break], TRUE), Bundle([Insn(act, TRUE)])]);
      && ExecStmt(w, [true, false], 1).trace == [Tested(x, true), Did(act), Tested(x, false)]
      && Exec(PruneStmt(w), [true, false], 1).trace == [Tested(x, true)]
  {
    UnprunedRun(x, act);
    PrunedRun(x, act);
  }

  lemma UnprunedRun(x: Value, act: Action)
    requires x.Dynamic? && !act.Goto?
    ensures var w := While(x, [RepeatUntil([Break], TRUE), Bundle([Insn(act, TRUE)])]);
      ExecStmt(w, [true, false], 1).trace == [Tested(x, true), Did(act), Tested(x, false)]
  {
    var once, last := RepeatUntil([Break], TRUE), Bundle([Insn(act, TRUE)]);
    var body := [once, last];
    assert body[0] == once && body[1..] == [last] && [Insn(act, TRUE)][1..] == [];
    ExecOne(Break, [false], 1);
    ExecOne(last, [false], 1);
    assert ExecInsns([Insn(act, TRUE)], [false]) == Result(Normal, [Did(act)], [false]);
    assert ExecStmt(once, [false], 1) == Result(Normal, [], [false]);
    assert Exec(body, [false], 1) == Result(Normal, [Did(act)], [false]);
    assert [true, false][1..] == [false] && Loop(While(x, body), [false], 0) == Result(Normal, [Tested(x, false)], []);
  }

  lemma PrunedRun(x: Value, act: Action)
    requires x.Dynamic? && !act.Goto?
    ensures var w := While(x, [RepeatUntil([Break], TRUE), Bundle([Insn(act, TRUE)])]);
      Exec(PruneStmt(w), [true, false], 1).trace == [Tested(x, true)]
  {
    var once, last := RepeatUntil([Break], TRUE), Bundle([Insn(act, TRUE)]);
    var body := [once, last];
    assert body[0] == once && body[1..] == [last] && [Insn(act, TRUE)][1..] == [] && [Break][1..] == [];
    assert [last][1..] == [];
    assert Prune([Break]) == [Break] && Prune(body) == [Break] + Prune([last]);
    var w' := While(x, Prune(body));
    assert PruneStmt(While(x, body)) == [w'];
    ExecOne(w', [true, false], 1);
    assert Prune(body)[0] == Break && Exec(Prune(body), [false], 1) == Result(Breaks, [], [false]);
    assert [true, false][1..] == [false];
  }
}
