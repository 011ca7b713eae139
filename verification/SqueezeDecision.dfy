/** squeeze.c: deciding beforehand whether squeeze stops, by running it on a copy of the grammar up to the first cycle
    of symbols with a single rule. */
module SqueezeDecision {
  import opened Wrappers
  import opened Grammars
  import opened SqueezeSteps
  import opened SqueezeEnds
  import opened SqueezeDooms
  import opened Squeezing

  lemma MentionsFewer(R: Rules, C: set<Sym>, D: set<Sym>, c: Sym)
    requires D <= C && Returns(R, D, c)
    ensures Returns(R, C, c)
  {
    MentionsMore(R[c][0], D, C);
  }

  /** All cycles of single rules lie in C. */
  ghost predicate CyclesIn(R: Rules, C: set<Sym>) {
    forall D :: CycleOfSingles(R, D) ==> D <= C
  }

  lemma CyclesElsewhere(R: Rules, C: set<Sym>, c: Sym)
    requires CyclesIn(R, C) && !Returns(R, C, c)
    ensures CyclesIn(R, C - {c})
  {
    forall D | CycleOfSingles(R, D) ensures c !in D {
      if c in D {
        assert Returns(R, D, c);
        MentionsFewer(R, C, D, c);
      }
    }
  }

  /** Drops symbols that cannot be on a cycle for as long as there are any. */
  method FindCycle(R: Rules) returns (cycle: bool)
    ensures cycle <==> HasCycle(R)
  {
    var C := set s: Sym | s < |R| && Inlinable(R, s);
    forall D | CycleOfSingles(R, D) ensures D <= C {
      forall c | c in D ensures c in C { assert Returns(R, D, c); }
    }
    while exists c :: c in C && !Returns(R, C, c)
      invariant CyclesIn(R, C)
      decreases |C|
    {
      var c :| c in C && !Returns(R, C, c);
      CyclesElsewhere(R, C, c);
      C := C - {c};
    }
    cycle := C != {};
    if cycle { assert CycleOfSingles(R, C); }
    if D :| CycleOfSingles(R, D) { var d :| d in D; }
  }

  /** The round of squeeze, given up before its squeezesymbols if there is a cycle. */
  method GuardedRound(g: Grammar, ghost W: seq<nat>) returns (cycle: bool, ghost W': seq<nat>)
    requires !HasCycle(g.rules) ==> Weighs(g.rules, W)
    modifies g`rules, g`changed
    ensures Doomed(old(g.rules)) <==> Doomed(g.rules)
    ensures cycle ==> HasCycle(g.rules)
    ensures !cycle ==> Weighs(g.rules, W') && (g.changed || Settled(g.rules))
    ensures !cycle ==> Progress(old(g.rules), W, g.rules, W', g.changed)
  {
    ghost var R := g.rules;
    g.changed, W' := false, W;
    SqueezeRules(g);
    ghost var R1, removed := g.rules, g.changed;
    DeduplicatedDoomed(R, R1);
    CountOrder(R, R1);
    cycle := FindCycle(g.rules);
    if cycle {
      return;
    }
    WeighableExactly(R1);
    if removed { W' :| Weighs(R1, W'); }
    var ends;
    ghost var n;
    ends, n := SqueezeSymbols(g);
    CountOrder(R1, g.rules);
    CountOrder(g.rules, R1);
  }

  /** Decides for every grammar whether squeeze would stop. */
  method IsDoomed(R: Rules) returns (doomed: bool)
    ensures doomed <==> Doomed(R)
  {
    var g := new Grammar(R, None, None);
    WeighableExactly(R);
    ghost var W: seq<nat> := if Weighable(R) then var W0 :| Weighs(R, W0); W0 else [];
    g.changed := true;
    while g.changed
      invariant Doomed(R) <==> Doomed(g.rules)
      invariant !HasCycle(g.rules) ==> Weighs(g.rules, W)
      invariant !g.changed ==> Settled(g.rules)
      decreases Count(g.rules), Total(W, g.rules), g.changed
    {
      doomed, W := GuardedRound(g, W);
      if doomed {
        HasCycleDoomed(g.rules);
        return;
      }
    }
    SettledNotDoomed(g.rules);
    doomed := false;
  }
}
