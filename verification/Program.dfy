/** A whole cQASM 1.2 program: its subcircuits, their linking by goto, and how it runs. */
module Programs {
  import opened Wrappers
  import opened SemanticTree
  import opened Pruning
  import opened Analysis
  import opened AnalyzerHelpers
  import opened TreeParts
  import opened Legality
  import opened Sections
  import opened SourceRuns
  import opened SourcePrograms

  // ----- linking -----

  predicate Named(subs: seq<Sub>, t: string) {
    exists k :: 0 <= k < |subs| && subs[k].name == t
  }

  predicate DistinctNames(subs: seq<Sub>) {
    forall j, k :: 0 <= j < k < |subs| ==> subs[j].name != subs[k].name
  }

  predicate AllNamed(subs: seq<Sub>, targets: seq<string>) {
    forall i :: 0 <= i < |targets| ==> Named(subs, targets[i])
  }

  /** Reports duplicate subcircuit names. */
  method CheckNames(h: AnalyzerHelper) returns (names: set<string>)
    requires h.Valid()
    modifies h`errors
    ensures h.errors >= old(h.errors) && (h.errors == old(h.errors) <==> DistinctNames(h.subcircuits))
    ensures forall t :: t in names <==> Named(h.subcircuits, t)
  {
    names := {};
    var i := 0;
    while i < |h.subcircuits|
      invariant i <= |h.subcircuits| && h.errors >= old(h.errors)
      invariant h.errors == old(h.errors) <==> DistinctNames(h.subcircuits[..i])
      invariant forall t :: t in names <==> Named(h.subcircuits[..i], t)
    {
      ghost var done := h.subcircuits[..i];
      assert h.subcircuits[..i + 1] == done + [h.subcircuits[i]];
      NamesSnoc(done, h.subcircuits[i]);
      if h.subcircuits[i].name in names {
        h.errors := h.errors + 1;
      }
      names := names + {h.subcircuits[i].name};
      i := i + 1;
    }
    assert h.subcircuits[..i] == h.subcircuits;
  }

  lemma NamesSnoc(subs: seq<Sub>, s: Sub)
    ensures forall t :: Named(subs + [s], t) <==> Named(subs, t) || t == s.name
    ensures DistinctNames(subs + [s]) <==> DistinctNames(subs) && !Named(subs, s.name)
  {
    var all := subs + [s];
    assert all[|subs|] == s && forall k :: 0 <= k < |subs| ==> all[k] == subs[k];
  }

  /** Reports gotos without a target. */
  method ResolveGotos(h: AnalyzerHelper, names: set<string>)
    requires h.Valid() && forall t :: t in names <==> Named(h.subcircuits, t)
    modifies h`errors
    ensures h.errors >= old(h.errors) && (h.errors == old(h.errors) <==> AllNamed(h.subcircuits, h.gotos))
  {
    var i := 0;
    while i < |h.gotos|
      invariant i <= |h.gotos| && h.errors >= old(h.errors)
      invariant h.errors == old(h.errors) <==> AllNamed(h.subcircuits, h.gotos[..i])
    {
      assert h.gotos[..i + 1] == h.gotos[..i] + [h.gotos[i]];
      if h.gotos[i] !in names {
        h.errors := h.errors + 1;
        assert h.gotos[..i + 1][i] == h.gotos[i];
      }
      i := i + 1;
    }
    assert h.gotos[..i] == h.gotos;
  }

  /** The analysis of a program.  It is silent exactly when the program obeys the rules, has no two subcircuits of
      one name, and has a target for each goto; the result then is the pruned program. */
  method AnalyzeProgram(mappings: Env, b: ABlock) returns (h: AnalyzerHelper)
    ensures h.errors == 0 <==>
      && BlockOk(b, mappings, false, true)
      && DistinctNames(Assemble(true, b, mappings, [])) && AllNamed(Assemble(true, b, mappings, []), Targets(b))
    ensures h.errors == 0 ==> h.subcircuits == Assemble(true, b, mappings, [])
    ensures h.errors == 0 && AllTame(Assemble(false, b, mappings, [])) ==>
      forall bits, fuel :: RunAll(h.subcircuits, bits, fuel) == RunProgram(b, mappings, bits, fuel)
    ensures h.errors == 0 ==> Holds(h.subcircuits, AllSections(b, mappings))
    ensures h.errors == 0 ==> JumpsFound(h.subcircuits) && forall k :: 0 <= k < |h.subcircuits| ==>
      AllLegal(Parts(h.subcircuits[k].body)) && h.subcircuits[k].iterations >= 1
  {
    h := new AnalyzerHelper(mappings);
    ghost var s0 := h.Now();
    h.AnalyzeStatements(b);
    assert [] + Targets(b) == Targets(b);
    var names := CheckNames(h);
    ResolveGotos(h, names);
    if h.errors == 0 && AllTame(Assemble(false, b, mappings, [])) {
      forall bits, fuel ensures RunAll(h.subcircuits, bits, fuel) == RunProgram(b, mappings, bits, fuel) {
        ProgramKept(b, mappings, bits, fuel);
        ProgramRuns(b, mappings, bits, fuel);
      }
    }
    if h.errors == 0 {
      AssembleSections(true, b, mappings);
      AssembledLegal(b, mappings);
      AssembledJumps(b, mappings);
    }
  }

  /** The subcircuits hold the pruned sections; the first, which has no name, is not there if nothing is left of it. */
  predicate Holds(subs: seq<Sub>, ss: seq<Section>) {
    ss != [] && subs ==
      (if Become(true, ss[0]).body == [] then [] else [Become(true, ss[0])]) + BecomeAll(true, ss[1..])
  }

  /** Every goto that is taken finds its subcircuit. */
  ghost predicate JumpsFound(subs: seq<Sub>) {
    forall k, bits, fuel {:trigger Exec(subs[k].body, bits, fuel)} :: 0 <= k < |subs| ==>
      var sig := Exec(subs[k].body, bits, fuel).sig;
      sig.Jumps? && sig.target != "" ==> Find(subs, sig.target).Some?
  }

  predicate PartsWithin(subs: seq<Sub>, parts: set<Part>) {
    forall k :: 0 <= k < |subs| ==> Parts(subs[k].body) <= parts
  }

  lemma PlaceParts(s: AStmt, env: Env, subs: seq<Sub>, parts: set<Part>)
    requires PartsWithin(subs, parts) && Parts(ElabStmt(s, env)) <= parts
    ensures PartsWithin(Place(true, s, env, subs), parts)
  {
    var out := Out(true, s, env);
    PruneParts(ElabStmt(s, env));
    if !s.ASubcircuit? && out != [] && subs != [] { PartsConcat(subs[|subs| - 1].body, out); }
  }

  lemma {:induction false} AssembleParts(b: ABlock, env: Env, subs: seq<Sub>, parts: set<Part>)
    requires PartsWithin(subs, parts) && Parts(Elab(b, env)) <= parts
    ensures PartsWithin(Assemble(true, b, env, subs), parts)
    decreases b
  {
    if b != [] {
      PartsConcat(ElabStmt(b[0], env), Elab(b[1..], EnvAfter(b[0], env)));
      PlaceParts(b[0], env, subs, parts);
      AssembleParts(b[1..], EnvAfter(b[0], env), Place(true, b[0], env, subs), parts);
    }
  }

  predicate CountsOk(subs: seq<Sub>) {
    forall k :: 0 <= k < |subs| ==> subs[k].iterations >= 1
  }

  lemma {:induction false} AssembleCounts(b: ABlock, env: Env, inLoop: bool, subs: seq<Sub>)
    requires BlockOk(b, env, inLoop, true) && CountsOk(subs)
    ensures CountsOk(Assemble(true, b, env, subs))
    decreases b
  {
    if b != [] { AssembleCounts(b[1..], EnvAfter(b[0], env), inLoop, Place(true, b[0], env, subs)); }
  }

  lemma AssembledLegal(b: ABlock, env: Env)
    requires BlockOk(b, env, false, true)
    ensures var subs := Assemble(true, b, env, []);
      forall k :: 0 <= k < |subs| ==> AllLegal(Parts(subs[k].body)) && subs[k].iterations >= 1
  {
    AssembleParts(b, env, [], Parts(Elab(b, env)));
    LegalTrees(b, env, false, true);
    AssembleCounts(b, env, false, []);
  }

  lemma {:induction false} NamedFound(subs: seq<Sub>, t: string)
    requires Named(subs, t) && t != ""
    ensures Find(subs, t).Some?
  {
    if subs[0].name != t {
      var k :| 0 <= k < |subs| && subs[k].name == t;
      assert subs[1..][k - 1].name == t;
      NamedFound(subs[1..], t);
    }
  }

  lemma AssembledJumps(b: ABlock, env: Env)
    requires AllNamed(Assemble(true, b, env, []), Targets(b))
    ensures JumpsFound(Assemble(true, b, env, []))
  {
    var subs := Assemble(true, b, env, []);
    AssembleParts(b, env, [], Parts(Elab(b, env)));
    forall k, bits, fuel {:trigger Exec(subs[k].body, bits, fuel)} | 0 <= k < |subs|
      ensures var sig := Exec(subs[k].body, bits, fuel).sig;
        sig.Jumps? && sig.target != "" ==> Find(subs, sig.target).Some?
    {
      var sig := Exec(subs[k].body, bits, fuel).sig;
      if sig.Jumps? && sig.target != "" {
        MayExec(subs[k].body, bits, fuel);
        MayGotos(subs[k].body, sig.target);
        GotosExact(b, env, sig.target);
        var i :| 0 <= i < |Targets(b)| && Targets(b)[i] == sig.target;
        NamedFound(subs, sig.target);
      }
    }
  }

  // ----- running -----

  /** The first subcircuit named t.  The default subcircuit has no name to jump to. */
  function Find(subs: seq<Sub>, t: string): (k: Option<nat>)
    ensures k.Some? ==> k.value < |subs|
  {
    if subs == [] then None
    else if t != "" && subs[0].name == t then Some(0)
    else
      match Find(subs[1..], t)
      case Some(k) => Some(k + 1)
      case None => None
  }

  function Rounds(subs: seq<Sub>, i: nat): nat {
    if i < |subs| && subs[i].iterations > 0 then subs[i].iterations else 0
  }

  /** Runs subcircuit i n more times and then those after it; a goto goes to the start of its target. */
  function Run(subs: seq<Sub>, i: nat, n: nat, bits: seq<bool>, fuel: nat): Result
    requires i <= |subs|
    decreases fuel, |subs| - i, n
  {
    if i == |subs| then Result(Normal, [], bits)
    else if n == 0 then Run(subs, i + 1, Rounds(subs, i + 1), bits, fuel)
    else
      var r := Exec(subs[i].body, bits, fuel);
      if r.sig == Normal then Prefix(r.trace, Run(subs, i, n - 1, r.bits, fuel))
      else if r.sig.Jumps? then
        var k := Find(subs, r.sig.target);
        if k.None? || fuel == 0 then r.(sig := Cut)
        else Prefix(r.trace, Run(subs, k.value, Rounds(subs, k.value), r.bits, fuel - 1))
      else r
  }

  function RunAll(subs: seq<Sub>, bits: seq<bool>, fuel: nat): Result {
    Run(subs, 0, Rounds(subs, 0), bits, fuel)
  }

  // ----- the pruned program runs like the program -----

  /** p is u with its body pruned. */
  predicate PrunedSub(p: Sub, u: Sub) {
    p.name == u.name && p.iterations == u.iterations && p.body == Prune(u.body)
  }

  /** u has the subcircuits of p before pruning, possibly behind a default one of which nothing is left. */
  ghost predicate PrunedSubs(p: seq<Sub>, u: seq<Sub>, d: nat) {
    && d <= 1 && |u| == |p| + d
    && (d == 1 ==> PrunedSub(Sub("", 1, []), u[0]))
    && forall i :: 0 <= i < |p| ==> PrunedSub(p[i], u[i + d])
  }

  /** What is added to the first subcircuit, which may have to be opened for it. */
  lemma FirstPruned(u: seq<Sub>, b: Block) returns (d: nat)
    requires PrunedSubs([], u, |u|) && b != []
    ensures PrunedSubs(AddTo([], Prune(b)), AddTo(u, b), d)
  {
    var was := if u == [] then [] else u[0].body;
    assert AddTo(u, b) == [Sub("", 1, was + b)] by { assert [] + b == b; }
    PruneConcat(was, b);
    assert [] + Prune(b) == Prune(b) && Prune([]) == [];
    d := OnePruned(Prune(b), was + b);
  }

  lemma OnePruned(a: Block, b: Block) returns (d: nat)
    requires a == Prune(b)
    ensures PrunedSubs(AddTo([], a), [Sub("", 1, b)], d)
  {
    d := if a == [] then 1 else 0;
  }

  lemma LastPruned(p: seq<Sub>, u: seq<Sub>, d: nat, b: Block)
    requires p != [] && PrunedSubs(p, u, d)
    ensures PrunedSubs(AddTo(p, Prune(b)), AddTo(u, b), d)
  {
    var k := |p| - 1;
    var x, y := p[k].(body := p[k].body + Prune(b)), u[k + d].(body := u[k + d].body + b);
    assert PrunedSub(p[k], u[k + d]);
    PruneConcat(u[k + d].body, b);
    AddToLast(p, Prune(b));
    AddToLast(u, b);
    UpdatedPruned(p, u, d, k, x, y);
  }

  lemma AddToLast(subs: seq<Sub>, out: Block)
    requires subs != []
    ensures var k := |subs| - 1; AddTo(subs, out) == subs[k := subs[k].(body := subs[k].body + out)]
  {
    var k := |subs| - 1;
    if out == [] { assert subs[k].body + out == subs[k].body; }
  }

  lemma UpdatedPruned(p: seq<Sub>, u: seq<Sub>, d: nat, k: nat, x: Sub, y: Sub)
    requires PrunedSubs(p, u, d) && k < |p| && PrunedSub(x, y)
    ensures PrunedSubs(p[k := x], u[k + d := y], d)
  {
    var p', u' := p[k := x], u[k + d := y];
    forall i, j | 0 <= i < |p| && j == i + d ensures PrunedSub(p'[i], u'[j]) {
      if i != k { assert PrunedSub(p[i], u[j]); }
    }
  }

  lemma PlacePruned(p: seq<Sub>, u: seq<Sub>, d: nat, s: AStmt, env: Env) returns (d': nat)
    requires PrunedSubs(p, u, d)
    ensures PrunedSubs(Place(true, s, env, p), Place(false, s, env, u), d')
  {
    d' := d;
    var b := ElabStmt(s, env);
    if !s.ASubcircuit? && b != [] {
      if p == [] {
        d' := FirstPruned(u, b);
      } else {
        LastPruned(p, u, d, b);
      }
    }
  }

  /** Pruning statement by statement is pruning each subcircuit. */
  lemma {:induction false} AssemblePruned(p: seq<Sub>, u: seq<Sub>, d: nat, b: ABlock, env: Env) returns (d': nat)
    requires PrunedSubs(p, u, d)
    ensures PrunedSubs(Assemble(true, b, env, p), Assemble(false, b, env, u), d')
    decreases b
  {
    d' := d;
    if b != [] {
      d' := PlacePruned(p, u, d, b[0], env);
      d' := AssemblePruned(Place(true, b[0], env, p), Place(false, b[0], env, u), d', b[1..], EnvAfter(b[0], env));
    }
  }

  /** No place that may be reached in a subcircuit is pruned wrongly. */
  predicate AllTame(subs: seq<Sub>) {
    forall k :: 0 <= k < |subs| ==> Tame(subs[k].body, false)
  }

  ghost predicate SubSame(p: Sub, u: Sub) {
    p.name == u.name && p.iterations == u.iterations && Same(p.body, u.body)
  }

  /** u has the subcircuits of p, possibly behind a default one in which nothing ever happens. */
  ghost predicate Paired(p: seq<Sub>, u: seq<Sub>, d: nat) {
    && d <= 1 && |u| == |p| + d
    && (d == 1 ==> SubSame(Sub("", 1, []), u[0]))
    && forall i: nat :: PairAt(p, u, d, i)
  }

  ghost predicate PairAt(p: seq<Sub>, u: seq<Sub>, d: nat, i: nat) {
    i < |p| ==> i + d < |u| && SubSame(p[i], u[i + d])
  }

  lemma PrunedSame(p: Sub, u: Sub)
    requires PrunedSub(p, u) && Tame(u.body, false)
    ensures SubSame(p, u)
  {
    forall bits, fuel ensures Exec(p.body, bits, fuel) == Exec(u.body, bits, fuel) { PruneRuns(u.body, bits, fuel); }
  }

  lemma PrunedPaired(p: seq<Sub>, u: seq<Sub>, d: nat)
    requires PrunedSubs(p, u, d) && AllTame(u)
    ensures Paired(p, u, d)
  {
    if d == 1 { PrunedSame(Sub("", 1, []), u[0]); }
    forall i: nat ensures PairAt(p, u, d, i) {
      if i < |p| { PrunedSame(p[i], u[i + d]); }
    }
  }

  lemma {:induction false} FindPaired(p: seq<Sub>, u: seq<Sub>, t: string)
    requires Paired(p, u, 0)
    ensures Find(p, t) == Find(u, t)
  {
    if p != [] {
      assert PairAt(p, u, 0, 0);
      forall i: nat ensures PairAt(p[1..], u[1..], 0, i) { assert PairAt(p, u, 0, i + 1); }
      FindPaired(p[1..], u[1..], t);
    }
  }

  /** One run of a subcircuit: what follows decides. */
  lemma RunPass(p: seq<Sub>, u: seq<Sub>, i: nat, j: nat, n: nat, bits: seq<bool>, fuel: nat)
    requires i < |p| && j < |u| && n > 0 && Exec(p[i].body, bits, fuel) == Exec(u[j].body, bits, fuel)
    requires var r := Exec(p[i].body, bits, fuel);
      r.sig == Normal ==> Run(p, i, n - 1, r.bits, fuel) == Run(u, j, n - 1, r.bits, fuel)
    requires var r := Exec(p[i].body, bits, fuel);
      r.sig.Jumps? ==> JumpsAlike(p, u, r.sig.target, r.bits, fuel)
    ensures Run(p, i, n, bits, fuel) == Run(u, j, n, bits, fuel)
  {
  }

  predicate JumpsAlike(p: seq<Sub>, u: seq<Sub>, t: string, bits: seq<bool>, fuel: nat) {
    var k, l := Find(p, t), Find(u, t);
    && (k.Some? <==> l.Some?)
    && (k.Some? && fuel > 0 ==>
      Run(p, k.value, Rounds(p, k.value), bits, fuel - 1) == Run(u, l.value, Rounds(u, l.value), bits, fuel - 1))
  }

  lemma {:induction false} RunPaired(p: seq<Sub>, u: seq<Sub>, d: nat, i: nat, n: nat, bits: seq<bool>, fuel: nat)
    requires Paired(p, u, d) && i <= |p|
    ensures Run(p, i, n, bits, fuel) == Run(u, i + d, n, bits, fuel)
    decreases fuel, |p| - i, n
  {
    if i < |p| {
      assert PairAt(p, u, d, i);
      if n == 0 {
        RoundsAt(p, u, d, i + 1);
        RunPaired(p, u, d, i + 1, Rounds(p, i + 1), bits, fuel);
      } else {
        assert Exec(p[i].body, bits, fuel) == Exec(u[i + d].body, bits, fuel);
        var r := Exec(p[i].body, bits, fuel);
        if r.sig == Normal {
          RunPaired(p, u, d, i, n - 1, r.bits, fuel);
        } else if r.sig.Jumps? {
          FindShifted(p, u, d, r.sig.target);
          var k := Find(p, r.sig.target);
          if k.Some? && fuel > 0 {
            RoundsAt(p, u, d, k.value);
            RunPaired(p, u, d, k.value, Rounds(p, k.value), r.bits, fuel - 1);
          }
          assert JumpsAlike(p, u, r.sig.target, r.bits, fuel);
        }
        RunPass(p, u, i, i + d, n, bits, fuel);
      }
    }
  }

  lemma RoundsAt(p: seq<Sub>, u: seq<Sub>, d: nat, i: nat)
    requires Paired(p, u, d)
    ensures Rounds(p, i) == Rounds(u, i + d)
  {
    assert PairAt(p, u, d, i);
  }

  lemma FindShifted(p: seq<Sub>, u: seq<Sub>, d: nat, t: string)
    requires Paired(p, u, d)
    ensures Find(u, t) == match Find(p, t) case Some(k) => Some(k + d) case None => None
  {
    if d == 0 {
      FindPaired(p, u, t);
    } else {
      forall i: nat ensures PairAt(p, u[1..], 0, i) { assert PairAt(p, u, 1, i); }
      FindPaired(p, u[1..], t);
    }
  }

  /** A default subcircuit in which nothing happens. */
  lemma DefaultSkipped(u: seq<Sub>, bits: seq<bool>, fuel: nat)
    requires u != [] && SubSame(Sub("", 1, []), u[0])
    ensures RunAll(u, bits, fuel) == Run(u, 1, Rounds(u, 1), bits, fuel)
  {
    assert Exec(u[0].body, bits, fuel) == Exec([], bits, fuel) == Result(Normal, [], bits);
    var r := Run(u, 0, 0, bits, fuel);
    assert Run(u, 0, 1, bits, fuel) == Prefix([], r);
    assert [] + r.trace == r.trace;
  }

  /** For every outcome of the dynamic conditions the analysed program makes the same tests, executes the same
      instructions and ends in the same way as the program before any pruning. */
  lemma ProgramKept(b: ABlock, env: Env, bits: seq<bool>, fuel: nat)
    requires AllTame(Assemble(false, b, env, []))
    ensures RunAll(Assemble(true, b, env, []), bits, fuel) == RunAll(Assemble(false, b, env, []), bits, fuel)
  {
    var d := AssemblePruned([], [], 0, b, env);
    var p, u := Assemble(true, b, env, []), Assemble(false, b, env, []);
    PrunedPaired(p, u, d);
    RunPaired(p, u, d, 0, Rounds(p, 0), bits, fuel);
    RoundsAt(p, u, d, 0);
    if d == 1 { DefaultSkipped(u, bits, fuel); }
  }

  // ----- the unpruned program runs like the source -----

  lemma {:induction false} BecomeAllAt(ss: seq<Section>)
    ensures Reflects(BecomeAll(false, ss), ss)
  {
    if ss != [] { BecomeAllAt(ss[1..]); }
  }

  /** Unpruned, subcircuit by subcircuit. */
  predicate Reflects(u: seq<Sub>, ss: seq<Section>) {
    |u| == |ss| && forall k :: 0 <= k < |u| ==> u[k] == Become(false, ss[k])
  }

  lemma {:induction false} FindReflected(u: seq<Sub>, ss: seq<Section>, t: string)
    requires Reflects(u, ss)
    ensures Find(u, t) == FindSection(ss, t)
  {
    if ss != [] { FindReflected(u[1..], ss[1..], t); }
  }

  lemma TimesReflected(u: seq<Sub>, ss: seq<Section>, i: nat)
    requires Reflects(u, ss)
    ensures Rounds(u, i) == Times(ss, i)
  {
  }

  /** One after the other, with gotos between them. */
  lemma {:induction false} SectionsRun(ss: seq<Section>, u: seq<Sub>, i: nat, n: nat, bits: seq<bool>, fuel: nat)
    requires Reflects(u, ss) && i <= |ss|
    ensures Run(u, i, n, bits, fuel) == RunSections(ss, i, n, bits, fuel)
    decreases fuel, |ss| - i, n
  {
    if i < |ss| {
      TimesReflected(u, ss, i + 1);
      if n == 0 {
        SectionsRun(ss, u, i + 1, Times(ss, i + 1), bits, fuel);
      } else {
        ElabRuns(ss[i].body, ss[i].env, bits, fuel);
        var r := RunSource(ss[i].body, ss[i].env, bits, fuel);
        if r.sig == Normal {
          SectionsRun(ss, u, i, n - 1, r.bits, fuel);
        } else if r.sig.Jumps? {
          FindReflected(u, ss, r.sig.target);
          var k := FindSection(ss, r.sig.target);
          if k.Some? && fuel > 0 {
            TimesReflected(u, ss, k.value);
            SectionsRun(ss, u, k.value, Times(ss, k.value), r.bits, fuel - 1);
          }
        }
      }
    }
  }

  /** Names looked up on the way, in the order in which the statements are written: that is how the tree of the whole
      program runs before pruning. */
  lemma ProgramRuns(b: ABlock, env: Env, bits: seq<bool>, fuel: nat)
    ensures RunAll(Assemble(false, b, env, []), bits, fuel) == RunProgram(b, env, bits, fuel)
  {
    var ss := AllSections(b, env);
    var u, p := BecomeAll(false, ss), BecomeAll(false, ss[1..]);
    AssembleSections(false, b, env);
    BecomeAllAt(ss);
    SectionsRun(ss, u, 0, 1, bits, fuel);
    assert u == [Become(false, ss[0])] + p;
    if Become(false, ss[0]).body == [] {
      SkippedPaired(u, p);
      RunPaired(p, u, 1, 0, Rounds(p, 0), bits, fuel);
      RoundsAt(p, u, 1, 0);
      DefaultSkipped(u, bits, fuel);
      assert [] + p == p;
    }
  }

  lemma SkippedPaired(u: seq<Sub>, p: seq<Sub>)
    requires u == [Sub("", 1, [])] + p
    ensures Paired(p, u, 1)
  {
    forall i: nat ensures PairAt(p, u, 1, i) {
      if i < |p| { assert u[i + 1] == p[i]; }
    }
  }
}
