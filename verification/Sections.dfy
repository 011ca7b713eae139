/** The subcircuits of a cQASM 1.2 program in terms of its statements: what each is called, how often it runs, and what
    it holds. */
module Sections {
  import opened Wrappers
  import opened SemanticTree
  import opened Pruning
  import opened Analysis

  /** A header and the statements behind it, with the mappings that hold where they begin. */
  datatype Section = Section(name: string, count: int, body: ABlock, env: Env)

  /** The number of statements before the next header. */
  function Plain(b: ABlock): (n: nat)
    ensures n <= |b| && (forall i :: 0 <= i < n ==> !b[i].ASubcircuit?) && (n < |b| ==> b[n].ASubcircuit?)
  {
    if b == [] || b[0].ASubcircuit? then 0 else 1 + Plain(b[1..])
  }

  /** How often a subcircuit is to run: as the constant in its header says, or once. */
  function Count(s: AStmt, env: Env): int
    requires s.ASubcircuit?
  {
    match s.iterations
    case None => 1
    case Some(e) => match Resolve(e, env) case Some(ConstInt(n)) => n case _ => 0
  }

  /** The sections of a program, from its first header on. */
  function SectionsOf(b: ABlock, env: Env): seq<Section>
    requires b != [] ==> b[0].ASubcircuit?
    decreases |b|
  {
    if b == [] then []
    else
      var n := Plain(b[1..]);
      [Section(b[0].name, Count(b[0], env), b[1..][..n], env)] + SectionsOf(b[1..][n..], EnvEnd(b[1..][..n], env))
  }

  /** The statements before the first header make a section that has no name and runs once. */
  function AllSections(b: ABlock, env: Env): seq<Section> {
    var n := Plain(b);
    [Section("", 1, b[..n], env)] + SectionsOf(b[n..], EnvEnd(b[..n], env))
  }

  /** What statements become. */
  function Gained(prune: bool, b: ABlock, env: Env): Block {
    if prune then Prune(Elab(b, env)) else Elab(b, env)
  }

  /** The subcircuit that a section becomes. */
  function Become(prune: bool, s: Section): Sub {
    Sub(s.name, s.count, Gained(prune, s.body, s.env))
  }

  function BecomeAll(prune: bool, ss: seq<Section>): seq<Sub> {
    if ss == [] then [] else [Become(prune, ss[0])] + BecomeAll(prune, ss[1..])
  }

  // ----- assembling -----

  lemma GainedCons(prune: bool, b: ABlock, env: Env)
    requires b != []
    ensures Gained(prune, b, env) == Out(prune, b[0], env) + Gained(prune, b[1..], EnvAfter(b[0], env))
  {
    PruneConcat(ElabStmt(b[0], env), Elab(b[1..], EnvAfter(b[0], env)));
  }

  lemma AddToNew(subs: seq<Sub>, name: string, n: int, out: Block)
    ensures AddTo(subs + [Sub(name, n, [])], out) == subs + [Sub(name, n, out)]
  {
    assert [] + out == out;
    var all := subs + [Sub(name, n, [])];
    assert all[|all| - 1] == Sub(name, n, []);
  }

  /** Statements before the next header go to the last subcircuit. */
  lemma {:induction false} AssemblePlain(prune: bool, b: ABlock, env: Env, subs: seq<Sub>)
    ensures var n := Plain(b);
      Assemble(prune, b, env, subs)
        == Assemble(prune, b[n..], EnvEnd(b[..n], env), AddTo(subs, Gained(prune, b[..n], env)))
  {
    var n := Plain(b);
    if n == 0 {
      assert b[..0] == [] && b[0..] == b && Gained(prune, [], env) == [];
    } else {
      var out, next := Out(prune, b[0], env), EnvAfter(b[0], env);
      AssemblePlain(prune, b[1..], next, AddTo(subs, out));
      assert b[1..][n - 1..] == b[n..] && b[1..][..n - 1] == b[..n][1..] && b[..n][0] == b[0];
      GainedCons(prune, b[..n], env);
      AddToAddTo(subs, out, Gained(prune, b[..n][1..], next));
    }
  }

  /** A header begins a subcircuit, which gains the statements before the next one. */
  lemma HeadedStep(prune: bool, b: ABlock, env: Env, subs: seq<Sub>)
    requires b != [] && b[0].ASubcircuit?
    ensures var rest, n := b[1..], Plain(b[1..]);
      Assemble(prune, b, env, subs) == Assemble(prune, rest[n..], EnvEnd(rest[..n], env),
        subs + [Sub(b[0].name, Count(b[0], env), Gained(prune, rest[..n], env))])
  {
    var n := Plain(b[1..]);
    assert Place(prune, b[0], env, subs) == subs + [Sub(b[0].name, Count(b[0], env), [])];
    AssemblePlain(prune, b[1..], env, subs + [Sub(b[0].name, Count(b[0], env), [])]);
    AddToNew(subs, b[0].name, Count(b[0], env), Gained(prune, b[1..][..n], env));
  }

  lemma {:induction false} AssembleHeaded(prune: bool, b: ABlock, env: Env, subs: seq<Sub>)
    requires b != [] ==> b[0].ASubcircuit?
    ensures Assemble(prune, b, env, subs) == subs + BecomeAll(prune, SectionsOf(b, env))
    decreases |b|
  {
    if b == [] {
      assert subs + [] == subs;
    } else {
      var rest, n := b[1..], Plain(b[1..]);
      HeadedStep(prune, b, env, subs);
      AssembleHeaded(prune, rest[n..], EnvEnd(rest[..n], env),
        subs + [Sub(b[0].name, Count(b[0], env), Gained(prune, rest[..n], env))]);
      HeadedCons(prune, b, env, subs);
    }
  }

  lemma HeadedCons(prune: bool, b: ABlock, env: Env, subs: seq<Sub>)
    requires b != [] && b[0].ASubcircuit?
    ensures var n := Plain(b[1..]);
      var x := Sub(b[0].name, Count(b[0], env), Gained(prune, b[1..][..n], env));
      (subs + [x]) + BecomeAll(prune, SectionsOf(b[1..][n..], EnvEnd(b[1..][..n], env)))
        == subs + BecomeAll(prune, SectionsOf(b, env))
  {
    var ss := SectionsOf(b, env);
    ConcatAssoc(subs, [Become(prune, ss[0])], BecomeAll(prune, ss[1..]));
  }

  /** The subcircuits of a program are its sections in order; one without a name comes first exactly if the statements
      before the first header become anything. */
  lemma AssembleSections(prune: bool, b: ABlock, env: Env)
    ensures var ss := AllSections(b, env);
      Assemble(prune, b, env, [])
        == (if Become(prune, ss[0]).body == [] then [] else [Become(prune, ss[0])]) + BecomeAll(prune, ss[1..])
  {
    var n := Plain(b);
    AssemblePlain(prune, b, env, []);
    AssembleHeaded(prune, b[n..], EnvEnd(b[..n], env), AddTo([], Gained(prune, b[..n], env)));
  }

  // ----- every header has its section -----

  /** The name and the count of every header, in order. */
  function HeadersOf(b: ABlock, env: Env): seq<(string, int)> {
    if b == [] then []
    else (if b[0].ASubcircuit? then [(b[0].name, Count(b[0], env))] else []) + HeadersOf(b[1..], EnvAfter(b[0], env))
  }

  function Heads(ss: seq<Section>): seq<(string, int)> {
    if ss == [] then [] else [(ss[0].name, ss[0].count)] + Heads(ss[1..])
  }

  lemma {:induction false} HeadersPlain(b: ABlock, env: Env)
    ensures HeadersOf(b, env) == HeadersOf(b[Plain(b)..], EnvEnd(b[..Plain(b)], env))
  {
    var n := Plain(b);
    if n == 0 {
      assert b[..0] == [] && b[0..] == b;
    } else {
      HeadersPlain(b[1..], EnvAfter(b[0], env));
      assert b[1..][n - 1..] == b[n..] && b[..n][0] == b[0] && b[..n][1..] == b[1..][..n - 1];
    }
  }

  lemma HeadsCons(s: Section, ss: seq<Section>)
    ensures Heads([s] + ss) == [(s.name, s.count)] + Heads(ss)
  {
    assert ([s] + ss)[1..] == ss;
  }

  lemma {:induction false} HeadedHeads(b: ABlock, env: Env)
    requires b != [] ==> b[0].ASubcircuit?
    ensures Heads(SectionsOf(b, env)) == HeadersOf(b, env)
    decreases |b|
  {
    if b != [] {
      var rest, n := b[1..], Plain(b[1..]);
      HeadedHeads(rest[n..], EnvEnd(rest[..n], env));
      HeadersPlain(rest, env);
      HeadsCons(Section(b[0].name, Count(b[0], env), rest[..n], env), SectionsOf(rest[n..], EnvEnd(rest[..n], env)));
    }
  }

  /** Besides the first, the sections are those of the headers in order, each with the count that its expression has
      under the mappings there. */
  lemma SectionHeads(b: ABlock, env: Env)
    ensures Heads(AllSections(b, env)) == [("", 1)] + HeadersOf(b, env)
  {
    var n := Plain(b);
    HeadersPlain(b, env);
    HeadedHeads(b[n..], EnvEnd(b[..n], env));
    HeadsCons(Section("", 1, b[..n], env), SectionsOf(b[n..], EnvEnd(b[..n], env)));
  }

  /** In a legal program every count is positive. */
  lemma {:induction false} CountsPositive(b: ABlock, env: Env, inLoop: bool)
    requires BlockOk(b, env, inLoop, true)
    ensures forall k :: 0 <= k < |HeadersOf(b, env)| ==> HeadersOf(b, env)[k].1 >= 1
  {
    if b != [] { CountsPositive(b[1..], EnvAfter(b[0], env), inLoop); }
  }
}
