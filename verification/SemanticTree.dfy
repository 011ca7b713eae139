/** The v1x semantic tree of structured programs (cQASM 1.2) and what executing it means.

    Dynamic conditions take any value at each evaluation: an execution is given the outcomes of its tests
    in order, and its trace records every test together with every action. */
module SemanticTree {

  import opened Wrappers

  /** A constant, or the value of a variable, measurement bit or function only known at run time. */
  datatype Value = ConstBool(b: bool) | ConstInt(n: int) | Dynamic(id: nat, boolean: bool, assignable: bool)

  datatype Action = Gate(op: nat, operands: seq<Value>) | Set(lhs: Value, rhs: Value) | Goto(target: string)

  /** An instruction with its condition. */
  datatype Insn = Insn(action: Action, cond: Value)

  datatype Stmt =
    | Bundle(insns: seq<Insn>)
    | IfElse(branches: seq<Branch>, otherwise: Else)
    | For(init: Option<Action>, cond: Value, update: Option<Action>, body: Block)
    | Foreach(lhs: Value, frm: int, to: int, body: Block)
    | While(cond: Value, body: Block)
    | RepeatUntil(body: Block, cond: Value)
    | Break
    | Continue

  type Block = seq<Stmt>

  datatype Branch = Branch(cond: Value, body: Block)
  datatype Else = NoElse | Else(block: Block)

  function ElseBlock(e: Else): Block {
    match e case NoElse => [] case Else(b) => b
  }

  // ----- execution -----

  datatype Event = Did(action: Action) | Tested(v: Value, outcome: bool) | Stepped(lhs: Value, n: int)

  /** How a block ends.  Cut: it ran out of test outcomes or of loop iterations. */
  datatype Signal = Normal | Breaks | Continues | Jumps(target: string) | Cut

  datatype Result = Result(sig: Signal, trace: seq<Event>, bits: seq<bool>)

  function Prefix(t: seq<Event>, r: Result): Result {
    r.(trace := t + r.trace)
  }

  /** The outcome of a test, if there is one, its trace and the outcomes left. */
  function Test(v: Value, bits: seq<bool>): (Option<bool>, seq<Event>, seq<bool>) {
    if v.ConstBool? then (Some(v.b), [], bits)
    else if bits == [] then (None, [], [])
    else (Some(bits[0]), [Tested(v, bits[0])], bits[1..])
  }

  /** The instructions of a bundle start together; the first goto that is taken names the target. */
  function ExecInsns(insns: seq<Insn>, bits: seq<bool>): Result {
    if insns == [] then Result(Normal, [], bits)
    else
      var (c, t, rest) := Test(insns[0].cond, bits);
      if c.None? then Result(Cut, t, rest)
      else
        var r := ExecInsns(insns[1..], rest);
        if !c.value then Prefix(t, r)
        else if insns[0].action.Goto? && r.sig != Cut then
          Prefix(t + [Did(insns[0].action)], r.(sig := Jumps(insns[0].action.target)))
        else Prefix(t + [Did(insns[0].action)], r)
  }

  /** The block an if-else takes. */
  function Choose(branches: seq<Branch>, otherwise: Else, bits: seq<bool>): (r: (Option<Block>, seq<Event>, seq<bool>))
    ensures r.0.Some? ==>
      r.0.value == ElseBlock(otherwise) || exists k :: 0 <= k < |branches| && r.0.value == branches[k].body
  {
    if branches == [] then (Some(ElseBlock(otherwise)), [], bits)
    else
      var (c, t, rest) := Test(branches[0].cond, bits);
      if c.None? then (None, t, rest)
      else if c.value then (Some(branches[0].body), t, rest)
      else
        var (b, t', rest') := Choose(branches[1..], otherwise, rest);
        (b, t + t', rest')
  }

  function Assigned(a: Option<Action>): seq<Event> {
    if a.Some? then [Did(a.value)] else []
  }

  /** The number of passes of a foreach loop, which counts up or down. */
  function Passes(frm: int, to: int): nat {
    if frm <= to then to - frm + 1 else frm - to + 1
  }

  /** fuel bounds how often a loop may come back. */
  function Exec(b: Block, bits: seq<bool>, fuel: nat): Result
    decreases fuel, b, 0
  {
    if b == [] then Result(Normal, [], bits)
    else
      var r := ExecStmt(b[0], bits, fuel);
      if r.sig != Normal then r else Prefix(r.trace, Exec(b[1..], r.bits, fuel))
  }

  function ExecStmt(s: Stmt, bits: seq<bool>, fuel: nat): Result
    decreases fuel, s, 1, 0
  {
    match s
    case Bundle(insns) => ExecInsns(insns, bits)
    case IfElse(branches, otherwise) =>
      var (b, t, rest) := Choose(branches, otherwise, bits);
      if b.None? then Result(Cut, t, rest)
      else if b.value == [] then Result(Normal, t, rest)
      else Prefix(t, Exec(b.value, rest, fuel))
    case For(init, cond, update, body) => Prefix(Assigned(init), Loop(s, bits, fuel))
    case Foreach(lhs, frm, to, body) => Steps(s, Passes(frm, to), bits, fuel)
    case While(cond, body) => Loop(s, bits, fuel)
    case RepeatUntil(body, cond) =>
      var r := Exec(body, bits, fuel);
      if r.sig == Breaks then r.(sig := Normal)
      else if r.sig.Jumps? || r.sig == Cut then r
      else
        var (c, t, rest) := Test(cond, r.bits);
        if c.None? then Result(Cut, r.trace + t, rest)
        else if c.value then Result(Normal, r.trace + t, rest)
        else if fuel == 0 then Result(Cut, r.trace + t, rest)
        else Prefix(r.trace + t, ExecStmt(s, rest, fuel - 1))
    case Break => Result(Breaks, [], bits)
    case Continue => Result(Continues, [], bits)
  }

  /** A while loop, or a for loop behind its initialization. */
  function Loop(s: Stmt, bits: seq<bool>, fuel: nat): Result
    requires s.While? || s.For?
    decreases fuel, s, 0, 0
  {
    var (c, t, rest) := Test(s.cond, bits);
    if c.None? then Result(Cut, t, rest)
    else if !c.value then Result(Normal, t, rest)
    else
      var r := Prefix(t, Exec(s.body, rest, fuel));
      if r.sig == Breaks then r.(sig := Normal)
      else if r.sig.Jumps? || r.sig == Cut then r
      else
        var u := if s.For? then Assigned(s.update) else [];
        if fuel == 0 then Result(Cut, r.trace + u, r.bits) else Prefix(r.trace + u, Loop(s, r.bits, fuel - 1))
  }

  /** The last n passes of a foreach loop. */
  function Steps(s: Stmt, n: nat, bits: seq<bool>, fuel: nat): Result
    requires s.Foreach?
    decreases fuel, s, 0, n
  {
    if n == 0 then Result(Normal, [], bits)
    else
      var i := if s.frm <= s.to then s.to - n + 1 else s.to + n - 1;
      var r := Prefix([Stepped(s.lhs, i)], Exec(s.body, bits, fuel));
      if r.sig == Breaks then r.(sig := Normal)
      else if r.sig.Jumps? || r.sig == Cut then r
      else Prefix(r.trace, Steps(s, n - 1, r.bits, fuel))
  }

  /** Blocks run one after the other. */
  lemma {:induction false} ExecConcat(a: Block, b: Block, bits: seq<bool>, fuel: nat)
    ensures var r := Exec(a, bits, fuel);
      Exec(a + b, bits, fuel) == if r.sig != Normal then r else Prefix(r.trace, Exec(b, r.bits, fuel))
  {
    if a == [] {
      assert a + b == b;
      assert [] + Exec(b, bits, fuel).trace == Exec(b, bits, fuel).trace;
    } else {
      var h := ExecStmt(a[0], bits, fuel);
      assert (a + b)[0] == a[0] && (a + b)[1..] == a[1..] + b;
      if h.sig == Normal {
        ExecConcat(a[1..], b, h.bits, fuel);
        var r := Exec(a[1..], h.bits, fuel);
        assert h.trace + (r.trace + Exec(b, r.bits, fuel).trace) == (h.trace + r.trace) + Exec(b, r.bits, fuel).trace;
      }
    }
  }

  lemma ExecOne(s: Stmt, bits: seq<bool>, fuel: nat)
    ensures Exec([s], bits, fuel) == ExecStmt(s, bits, fuel)
  {
    var r := ExecStmt(s, bits, fuel);
    assert [s][1..] == [] && r.trace + [] == r.trace;
  }
}
