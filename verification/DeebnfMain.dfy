/** deebnf.c: the routines that walk the rules, and the interface `deebnf`. */
module DeebnfMain {
  import opened Wrappers
  import opened Grammars
  import opened Deebnfing
  import opened Ebnf
  import opened Processing

  function AppendEach(rows: seq<Rule>, t: Sym): seq<Rule> {
    if rows == [] then [] else [rows[0] + [t]] + AppendEach(rows[1..], t)
  }

  lemma {:induction false} AppendEachConcat(a: seq<Rule>, b: seq<Rule>, t: Sym)
    ensures AppendEach(a + b, t) == AppendEach(a, t) + AppendEach(b, t)
  {
    if a == [] {
      assert a + b == b;
    } else {
      assert (a + b)[1..] == a[1..] + b;
      AppendEachConcat(a[1..], b, t);
    }
  }

  lemma {:induction false} AppendEachFree(m: Metas, rows: seq<Rule>, t: Sym)
    requires BracketFree(m, rows) && !m.IsMeta(t)
    ensures BracketFree(m, AppendEach(rows, t))
  {
    if rows != [] {
      assert BracketFree(m, rows[1..]) by {
        forall k | 0 <= k < |rows| - 1 ensures NoMeta(m, rows[1..][k]) { assert rows[1..][k] == rows[k + 1]; }
      }
      AppendEachFree(m, rows[1..], t);
      assert NoMeta(m, rows[0]);
      var r := AppendEach(rows, t);
      forall k | 0 <= k < |r| ensures NoMeta(m, r[k]) {
        if k > 0 { assert r[k] == AppendEach(rows[1..], t)[k - 1]; }
      }
    }
  }

  lemma {:induction false} AppendEachReads(R: Rules, e: Sym, lo: nat, a: Alts, rows: seq<Rule>, t: Sym)
    requires RepAlts(R, e, lo, a, rows, [])
    ensures RepAlts(R, e, lo, a, AppendEach(rows, t), [t])
  {
    var r := AppendEach(rows, t);
    assert Stem(rows[0], []) == rows[0] && Stem(r[0], [t]) == rows[0];
    match a
    case Only(_) =>
      assert AppendEach(rows[1..], t) == [];
    case Either(_, more) =>
      AppendEachReads(R, e, lo, more, rows[1..], t);
      assert r[1..] == AppendEach(rows[1..], t);
  }

  method AddEmptyRule(g: Grammar, s: Sym)
    requires s < |g.rules|
    modifies g`rules, g`errors
    ensures match g.emptypt
      case None => g.rules == old(g.rules) && g.errors == old(g.errors) + 1
      case Some(e) => g.rules == old(g.rules[s := [[e]] + g.rules[s]]) && g.errors == old(g.errors)
  {
    if g.emptypt.None? {
      Error(g);
      return;
    }
    g.rules := g.rules[s := [[g.emptypt.value]] + g.rules[s]];
  }

  /** The rules of s with the first p ended by s. */
  ghost predicate Ended(R0: Rules, R: Rules, s: Sym, p: nat) {
    s < |R0| && p <= |R0[s]| && R == R0[s := AppendEach(R0[s][..p], s) + R0[s][p..]]
  }

  lemma EndedStart(R: Rules, s: Sym)
    requires s < |R|
    ensures Ended(R, R, s, 0)
  {
    assert AppendEach(R[s][..0], s) == [] && [] + R[s][0..] == R[s];
  }

  lemma {:induction false} AppendEachLength(rows: seq<Rule>, t: Sym)
    ensures |AppendEach(rows, t)| == |rows|
  {
    if rows != [] { AppendEachLength(rows[1..], t); }
  }

  lemma EndedStep(R0: Rules, R: Rules, s: Sym, p: nat)
    requires Ended(R0, R, s, p) && p < |R0[s]|
    ensures |R| == |R0| && |R[s]| == |R0[s]| && R[s][p] == R0[s][p]
    ensures Ended(R0, R[s := R[s][p := R[s][p] + [s]]], s, p + 1)
  {
    var row := R0[s];
    AppendEachLength(row[..p], s);
    assert row[..p + 1] == row[..p] + [row[p]];
    AppendEachConcat(row[..p], [row[p]], s);
    assert AppendEach([row[p]], s) == [row[p] + [s]] + AppendEach([], s);
    assert R[s][p := row[p] + [s]] == AppendEach(row[..p + 1], s) + row[p + 1..];
  }

  lemma EndedAll(R0: Rules, R: Rules, s: Sym)
    requires s < |R0| && Ended(R0, R, s, |R0[s]|)
    ensures R == R0[s := AppendEach(R0[s], s)]
  {
    var row := R0[s];
    assert row[..|row|] == row && AppendEach(row, s) + row[|row|..] == AppendEach(row, s);
  }

  /** Ends each rule of s with s itself and adds the empty rule. */
  method MakeIterative(g: Grammar, s: Sym)
    requires s < |g.rules|
    modifies g`rules, g`errors
    ensures match g.emptypt
      case None => g.rules == old(g.rules[s := AppendEach(g.rules[s], s)]) && g.errors == old(g.errors) + 1
      case Some(e) => g.rules == old(g.rules[s := [[e]] + AppendEach(g.rules[s], s)]) && g.errors == old(g.errors)
  {
    ghost var R0, n := g.rules, |g.rules[s]|;
    var p := 0;
    EndedStart(R0, s);
    while p < |g.rules[s]|
      invariant p <= n && |g.rules| == |R0| && |g.rules[s]| == n && Ended(R0, g.rules, s, p)
      invariant g.errors == old(g.errors)
    {
      EndedStep(R0, g.rules, s, p);
      var e := 0;
      while e < |g.rules[s][p]|
        invariant e <= |g.rules[s][p]|
      {
        e := e + 1;
      }
      assert g.rules[s][p][..e] == g.rules[s][p];
      g.rules := g.rules[s := g.rules[s][p := g.rules[s][p][..e] + [s]]];
      p := p + 1;
    }
    EndedAll(R0, g.rules, s);
    AddEmptyRule(g, s);
  }

  // ----- process -----

  predicate Ready(m: Metas, g: Grammar)
    reads g
  {
    m.Distinct() && m.Below(|g.rules|) && |g.state| == |g.rules| && (g.emptypt.Some? ==> !m.IsMeta(g.emptypt.value))
  }

  /** Rewrites the rules of s; n bounds the brackets in them.  If they are the layout of an expression,
      given as a, they come to stand for it and there is no complaint; without a complaint they were the
      layout of some expression. */
  method Process(g: Grammar, m: Metas, s: Sym, ghost n: nat, ghost a: Option<Alts>)
    requires Ready(m, g) && s < |g.rules| && RowLefts(m, g.rules[s]) <= n
    requires a.Some? ==> g.emptypt.Some? && Layout(m, a.value, g.rules[s])
    modifies g`rules, g`state, g`errors
    ensures Ready(m, g) && Grown(m, old(g.rules), old(g.state), g.rules, g.state, s)
    ensures BracketFree(m, g.rules[s]) && g.state[s] == Touched && g.errors >= old(g.errors)
    ensures a.Some? ==>
      RepAlts(g.rules, g.emptypt.value, old(|g.rules|), a.value, g.rules[s], []) && g.errors == old(g.errors)
    ensures g.errors == old(g.errors) && old(g.rules[s]) != [] ==> WellFormed(m, old(g.rules[s]))
    ensures old(g.rules[s]) == [] ==> g.rules == old(g.rules) && g.errors == old(g.errors)
    decreases n, 4
  {
    ghost var R0, S0, row0, n0, E0 := g.rules, g.state, g.rules[s], |g.rules|, g.errors;
    ghost var rem := if a.Some? then a.value else Only(End);
    var p := 0;
    if row0 != [] {
      assert row0[0][0..] == row0[0] && RestOf(row0, 0, 0) == row0;
      assert row0[..0] == [] && row0[0][..0] == [];
    }
    if a.Some? { ContinuesStart(R0, g.emptypt.value, n0, a.value); }
    while p < |g.rules[s]|
      invariant Ready(m, g) && Grown(m, R0, S0, g.rules, g.state, s) && g.errors >= E0
      invariant p <= |g.rules[s]| && BracketFree(m, g.rules[s][..p]) && RowLefts(m, g.rules[s]) <= n
      invariant row0 == [] ==> g.rules == R0 && g.errors == E0
      invariant a.Some? ==> g.errors == E0
      invariant a.Some? && p < |g.rules[s]| ==> Tracking(m, g.rules, g.emptypt, n0, a.value, rem, g.rules[s], p, 0)
      invariant a.Some? && p == |g.rules[s]| ==> RepAlts(g.rules, g.emptypt.value, n0, a.value, g.rules[s], [])
      invariant g.errors == E0 && p < |g.rules[s]| ==> Parses(m, row0, RestOf(g.rules[s], p, 0))
      invariant g.errors == E0 && p == |g.rules[s]| && row0 != [] ==> WellFormed(m, row0)
      decreases |g.rules[s]| - p
    {
      rem := ProcessRule(g, m, s, p, n, a, rem, n0, R0, S0, row0, E0);
      NextRule(m, g.rules, g.emptypt, n0, a, rem, g.rules[s], p);
      if g.errors == E0 { NextRuleParses(m, row0, g.rules[s], p); }
      rem := if rem.Either? then rem.more else rem;
      p := p + 1;
    }
    assert g.rules[s][..p] == g.rules[s];
    g.state := g.state[s := Touched];
  }

  /** The walk arrives at the end of rule p. */
  lemma NextRule(m: Metas, R: Rules, empty: Option<Sym>, lo: nat, a: Option<Alts>, rem: Alts, row: seq<Rule>, p: nat)
    requires p < |row|
    requires a.Some? ==> Tracking(m, R, empty, lo, a.value, rem, row, p, |row[p]|)
    ensures a.Some? && p + 1 < |row| ==> rem.Either? && Tracking(m, R, empty, lo, a.value, rem.more, row, p + 1, 0)
    ensures a.Some? && p + 1 == |row| ==> RepAlts(R, empty.value, lo, a.value, row, [])
  {
    if a.Some? {
      var cur := row[p];
      assert cur[|cur|..] == [] && cur[..|cur|] == cur && row[..p + 1] == row[..p] + [cur];
      assert RestOf(row, p, |cur|)[1..] == row[p + 1..];
      RestStart(m, rem);
      if rem.Either? {
        ContinuesNext(R, empty.value, lo, a.value, rem.more, row[..p], cur);
        assert row[p + 1..] == Flat(m, rem.more) && row[p + 1][..0] == [] && row[p + 1][0..] == row[p + 1];
        assert RestOf(row, p + 1, 0) == row[p + 1..];
      } else {
        ContinuesEnd(R, empty.value, lo, a.value, row[..p], cur);
        assert row[..p + 1] == row;
      }
    }
  }

  lemma NextRuleParses(m: Metas, row0: seq<Rule>, row: seq<Rule>, p: nat)
    requires p < |row| && Parses(m, row0, RestOf(row, p, |row[p]|))
    ensures p + 1 < |row| ==> Parses(m, row0, RestOf(row, p + 1, 0))
    ensures p + 1 == |row| ==> WellFormed(m, row0)
  {
    var rest := RestOf(row, p, |row[p]|);
    assert row[p][|row[p]|..] == [] && FlatItems(m, End) == [[]] && PlainItems(m, End);
    if p + 1 == |row| {
      assert rest == [[]] && Layout(m, Only(End), rest);
    } else if WellFormed(m, RestOf(row, p + 1, 0)) {
      assert RestOf(row, p + 1, 0) == row[p + 1..] && rest == [[]] + row[p + 1..];
      var a :| Layout(m, a, row[p + 1..]);
      assert Layout(m, Either(End, a), rest);
    }
  }

  /** The state of the loops of process: see Walking, Tracking and Parses. */
  ghost predicate Midway(m: Metas, g: Grammar, s: Sym, p: nat, e: nat, n: nat, a: Option<Alts>, rem: Alts, n0: nat,
      R0: Rules, S0: seq<State>, row0: seq<Rule>, E0: nat)
    reads g
  {
    && Ready(m, g) && Grown(m, R0, S0, g.rules, g.state, s) && |R0| == n0 && g.errors >= E0
    && Walking(m, g.rules[s], p, e, n)
    && (a.Some? ==> g.errors == E0 && Tracking(m, g.rules, g.emptypt, n0, a.value, rem, g.rules[s], p, e))
    && (g.errors == E0 ==> Parses(m, row0, RestOf(g.rules[s], p, e)))
  }

  /** The inner loop of process. */
  method ProcessRule(g: Grammar, m: Metas, s: Sym, p: nat, ghost n: nat, ghost a: Option<Alts>, ghost rem0: Alts,
      ghost n0: nat,
      ghost R0: Rules, ghost S0: seq<State>, ghost row0: seq<Rule>, ghost E0: nat)
    returns (ghost rem: Alts)
    requires Midway(m, g, s, p, 0, n, a, rem0, n0, R0, S0, row0, E0)
    modifies g`rules, g`state, g`errors
    ensures s < |g.rules| && p < |g.rules[s]| <= old(|g.rules[s]|) && BracketFree(m, g.rules[s][..p + 1])
    ensures Midway(m, g, s, p, |g.rules[s][p]|, n, a, rem, n0, R0, S0, row0, E0)
    decreases n, 3
  {
    rem := rem0;
    var e: nat := 0;
    while e < |g.rules[s][p]|
      invariant Midway(m, g, s, p, e, n, a, rem, n0, R0, S0, row0, E0)
      invariant |g.rules[s]| <= old(|g.rules[s]|)
      decreases Size(RestOf(g.rules[s], p, e))
    {
      e, rem := ProcessElement(g, m, s, p, e, n, a, rem, n0, R0, S0, row0, E0);
    }
    assert g.rules[s][p][..e] == g.rules[s][p] && g.rules[s][..p + 1] == g.rules[s][..p] + [g.rules[s][p]];
  }

  /** A stray closing bracket is clipped from the rule. */
  method ClipStray(g: Grammar, m: Metas, s: Sym, p: nat, e: nat, ghost n: nat, ghost a: Option<Alts>, ghost rem: Alts,
      ghost n0: nat, ghost R0: Rules, ghost S0: seq<State>, ghost row0: seq<Rule>, ghost E0: nat)
    requires Midway(m, g, s, p, e, n, a, rem, n0, R0, S0, row0, E0) && e < |g.rules[s][p]|
    requires m.IsRight(g.rules[s][p][e])
    modifies g`rules, g`errors
    ensures forall rem' :: Midway(m, g, s, p, e, n, a, rem', n0, R0, S0, row0, E0)
    ensures |g.rules[s]| <= old(|g.rules[s]|) && Size(RestOf(g.rules[s], p, e)) < Size(RestOf(old(g.rules[s]), p, e))
  {
    ghost var row := g.rules[s];
    if a.Some? { StepStray(m, g.rules, g.emptypt, n0, a.value, rem, row, p, e); }
    Error(g);
    g.rules := g.rules[s := g.rules[s][p := g.rules[s][p][..e] + g.rules[s][p][e + 1..]]];
    Clipped(m, row, g.rules[s], p, e, n);
  }

  /** A symbol that is no bracket is passed. */
  lemma PassUse(g: Grammar, m: Metas, s: Sym, p: nat, e: nat, n: nat, a: Option<Alts>, rem: Alts,
      n0: nat, R0: Rules, S0: seq<State>, row0: seq<Rule>, E0: nat)
    requires Midway(m, g, s, p, e, n, a, rem, n0, R0, S0, row0, E0) && e < |g.rules[s][p]|
    requires !m.IsMeta(g.rules[s][p][e])
    ensures Midway(m, g, s, p, e + 1, n, a, WithItems(rem, if rem.items.End? then End else rem.items.tail),
      n0, R0, S0, row0, E0)
    ensures Size(RestOf(g.rules[s], p, e + 1)) < Size(RestOf(g.rules[s], p, e))
  {
    var row := g.rules[s];
    RestCounts(m, row, p, e);
    if a.Some? { StepUse(m, g.rules, g.emptypt, n0, a.value, rem, row, p, e); }
    if g.errors == E0 { StepUseParses(m, row0, row, p, e); }
    assert row[p][..e + 1] == row[p][..e] + [row[p][e]];
    assert RestOf(row, p, e + 1) == [row[p][e + 1..]] + row[p + 1..];
  }

  /** One turn of the inner loop of process. */
  method ProcessElement(g: Grammar, m: Metas, s: Sym, p: nat, e: nat, ghost n: nat, ghost a: Option<Alts>,
      ghost rem: Alts,
      ghost n0: nat, ghost R0: Rules, ghost S0: seq<State>, ghost row0: seq<Rule>, ghost E0: nat)
    returns (e': nat, ghost rem': Alts)
    requires Midway(m, g, s, p, e, n, a, rem, n0, R0, S0, row0, E0) && e < |g.rules[s][p]|
    modifies g`rules, g`state, g`errors
    ensures Midway(m, g, s, p, e', n, a, rem', n0, R0, S0, row0, E0)
    ensures |g.rules[s]| <= old(|g.rules[s]|) && Size(RestOf(g.rules[s], p, e')) < Size(RestOf(old(g.rules[s]), p, e))
    decreases n, 2
  {
    var t := g.rules[s][p][e];
    rem' := WithItems(rem, if rem.items.End? then End else rem.items.tail);
    if m.IsRight(t) {
      ClipStray(g, m, s, p, e, n, a, rem, n0, R0, S0, row0, E0);
      e' := e;
    } else if m.IsLeft(t) {
      var k := if t == m.lparen then Paren else if t == m.lsquare then Square else Curly;
      ProcessGroup(g, m, s, p, e, k, n, a, rem, n0, R0, S0, row0, E0);
      e' := e + 1;
    } else {
      PassUse(g, m, s, p, e, n, a, rem, n0, R0, S0, row0, E0);
      e' := e + 1;
    }
  }

  lemma Clipped(m: Metas, row: seq<Rule>, row': seq<Rule>, p: nat, e: nat, n: nat)
    requires Walking(m, row, p, e, n) && e < |row[p]| && row' == row[p := row[p][..e] + row[p][e + 1..]]
    ensures Walking(m, row', p, e, n) && Size(RestOf(row', p, e)) < Size(RestOf(row, p, e))
  {
    RestCounts(m, row, p, e);
    assert row'[..p] == row[..p] && row'[p][..e] == row[p][..e] && row'[p][e..] == row[p][e + 1..];
    assert row'[p + 1..] == row[p + 1..];
    assert row' == row'[..p] + ([row'[p]] + row'[p + 1..]) && row'[p] == row'[p][..e] + row'[p][e..];
    RowsConcat(m, row'[..p], [row'[p]] + row'[p + 1..]);
    assert ([row'[p]] + row'[p + 1..])[1..] == row'[p + 1..];
    LeftsConcat(m, row'[p][..e], row'[p][e..]);
    assert ([row[p][e + 1..]] + row[p + 1..])[1..] == row[p + 1..];
  }

  /** The closing part of a group: an option gets the empty rule, a repetition comes back to itself. */
  method FinishGroup(g: Grammar, m: Metas, ns: Sym, k: Kind, ghost b: Option<Alts>)
    requires Ready(m, g) && ns < |g.rules| && BracketFree(m, g.rules[ns]) && !m.IsMeta(ns)
    requires b.Some? ==> g.emptypt.Some? && RepAlts(g.rules, g.emptypt.value, ns + 1, b.value, g.rules[ns], [])
    modifies g`rules, g`errors
    ensures |g.rules| == old(|g.rules|) && g.rules == old(g.rules)[ns := g.rules[ns]] && BracketFree(m, g.rules[ns])
    ensures g.errors >= old(g.errors)
    ensures b.Some? ==> RepGroup(g.rules, g.emptypt.value, ns, k, b.value, ns) && g.errors == old(g.errors)
  {
    ghost var R, row := g.rules, g.rules[ns];
    if k == Square {
      AddEmptyRule(g, ns);
    } else if k == Curly {
      AppendEachFree(m, row, ns);
      MakeIterative(g, ns);
    }
    EmptyRuleFree(m, g.emptypt, row);
    EmptyRuleFree(m, g.emptypt, AppendEach(row, ns));
    if b.Some? {
      var e := g.emptypt.value;
      RepAltsKept(R, g.rules, e, ns + 1, b.value, row, []);
      AppendEachReads(g.rules, e, ns + 1, b.value, row, ns);
      assert ([[e]] + row)[1..] == row && ([[e]] + AppendEach(row, ns))[1..] == AppendEach(row, ns);
    }
  }

  lemma EmptyRuleFree(m: Metas, e: Option<Sym>, rows: seq<Rule>)
    requires e.Some? ==> !m.IsMeta(e.value)
    ensures BracketFree(m, rows) && e.Some? ==> BracketFree(m, [[e.value]] + rows)
  {
  }

  /** The productions of the new symbol: they hold fewer brackets, and if they are laid out without null productions
      they are as they were. */
  lemma TakenRows(m: Metas, row: seq<Rule>, p: nat, e: nat, k: Kind, n: nat, empty: Option<Sym>, ns: Sym,
      b: Option<Alts>)
    requires m.Distinct() && !m.IsMeta(ns) && (empty.Some? ==> !m.IsMeta(empty.value))
    requires Walking(m, row, p, e, n) && e < |row[p]| && row[p][e] == m.Left(k)
    requires var x := Extraction(row, p, e, m.Left(k), m.Right(k));
      b.Some? ==> Plain(m, b.value) && NoEnd(b.value) && x.found && x.taken == Flat(m, b.value)
    ensures var x := Extraction(row, p, e, m.Left(k), m.Right(k));
      && n > 0 && RowLefts(m, FillAll(empty, x.taken)) <= n - 1
      && ([] !in x.taken ==> NoneNull(x.taken) && FillAll(empty, x.taken) == x.taken)
      && (b.Some? ==> x.found && [] !in x.taken && Layout(m, b.value, FillAll(empty, x.taken)))
      && FillAll(empty, x.taken) != []
  {
    var x := Extraction(row, p, e, m.Left(k), m.Right(k));
    ExtractionCounts(m, row, p, e, k, ns);
    FillCounts(m, empty, x.taken);
    TakenNonNull(x.taken);
    if b.Some? { AltsNonNull(m, b.value); }
    if NoneNull(x.taken) { FillNothing(empty, x.taken); }
  }

  /** Takes a group out of the rules of s and gives its symbol the rules that the brackets mean. */
  method TakeGroup(g: Grammar, m: Metas, s: Sym, p: nat, e: nat, k: Kind, ghost n: nat, ghost b: Option<Alts>)
    requires Ready(m, g) && s < |g.rules| && Walking(m, g.rules[s], p, e, n)
    requires e < |g.rules[s][p]| && g.rules[s][p][e] == m.Left(k)
    requires b.Some? ==> g.emptypt.Some? && Plain(m, b.value) && NoEnd(b.value)
    requires var x := Extraction(g.rules[s], p, e, m.Left(k), m.Right(k));
      b.Some? ==> x.found && x.taken == Flat(m, b.value)
    modifies g`rules, g`state, g`errors
    ensures Ready(m, g) && Grown(m, old(g.rules), old(g.state), g.rules, g.state, s) && g.errors >= old(g.errors)
    ensures g.rules[s] == Spliced(old(g.rules[s]), p, e, old(|g.rules|),
      Extraction(old(g.rules[s]), p, e, m.Left(k), m.Right(k)))
    ensures b.Some? ==> g.errors == old(g.errors)
    ensures b.Some? ==> RepGroup(g.rules, g.emptypt.value, old(|g.rules|), k, b.value, old(|g.rules|))
    ensures var x := Extraction(old(g.rules[s]), p, e, m.Left(k), m.Right(k));
      g.errors == old(g.errors) ==> x.found && NoneNull(x.taken) && WellFormed(m, x.taken)
    decreases n, 0
  {
    ghost var R, S := g.rules, g.state;
    TakenRows(m, g.rules[s], p, e, k, n, g.emptypt, |g.rules|, b);
    var ns := ExtractUntil(g, s, p, e, m.Right(k));
    ghost var R1, S1 := g.rules, g.state;
    Process(g, m, ns, n - 1, b);
    ghost var R2 := g.rules;
    FinishGroup(g, m, ns, k, b);
    TakenGrown(m, R, S, R1, S1, R2, g.rules, g.state, s, ns);
  }

  lemma TakenNonNull(rows: seq<Rule>)
    ensures [] !in rows ==> NoneNull(rows)
  {
  }

  lemma TakenGrown(m: Metas, R: Rules, S: seq<State>, R1: Rules, S1: seq<State>, R2: Rules, R3: Rules, S2: seq<State>,
      s: Sym, ns: Sym)
    requires s < ns == |R| == |S| && |R1| == |S1| == ns + 1 && (forall t :: 0 <= t < ns && t != s ==> R1[t] == R[t])
    requires forall t :: 0 <= t < ns ==> S1[t] == S[t]
    requires Grown(m, R1, S1, R2, S2, ns) && S2[ns] == Touched && |R3| == |R2| && R3 == R2[ns := R3[ns]]
    requires BracketFree(m, R3[ns])
    ensures Grown(m, R, S, R3, S2, s) && R3[s] == R1[s]
  {
    forall t | 0 <= t < |R| && t != s ensures R3[t] == R[t] && S2[t] == S[t] { assert R2[t] == R1[t]; }
    forall t | |R| <= t < |R3| ensures BracketFree(m, R3[t]) && S2[t] == Touched {
      if t != ns { assert R3[t] == R2[t]; }
    }
  }

  /** An opening bracket. */
  method ProcessGroup(g: Grammar, m: Metas, s: Sym, p: nat, e: nat, k: Kind, ghost n: nat, ghost a: Option<Alts>,
      ghost rem: Alts, ghost n0: nat,
      ghost R0: Rules, ghost S0: seq<State>, ghost row0: seq<Rule>, ghost E0: nat)
    requires Midway(m, g, s, p, e, n, a, rem, n0, R0, S0, row0, E0) && e < |g.rules[s][p]|
    requires g.rules[s][p][e] == m.Left(k)
    modifies g`rules, g`state, g`errors
    ensures Midway(m, g, s, p, e + 1, n, a, WithItems(rem, if rem.items.End? then End else rem.items.tail),
      n0, R0, S0, row0, E0)
    ensures |g.rules[s]| <= old(|g.rules[s]|)
    ensures Size(RestOf(g.rules[s], p, e + 1)) < Size(RestOf(old(g.rules[s]), p, e))
    decreases n, 1
  {
    ghost var R, S, row, ns := g.rules, g.state, g.rules[s], |g.rules|;
    if a.Some? { TrackedGroup(m, rem, row, p, e, k); }
    TakeGroup(g, m, s, p, e, k, n, if a.Some? then Some(rem.items.alts) else None);
    GrownTrans(m, R0, S0, R, S, g.rules, g.state, s);
    ExtractionCounts(m, row, p, e, k, ns);
    assert NoMeta(m, g.rules[s][p][..e + 1]);
    if a.Some? { StepGroup(m, R, g.rules, g.emptypt, n0, a.value, rem, row, p, e, k, ns); }
    if g.errors == E0 { StepGroupParses(m, row0, row, p, e, k, ns); }
  }

  // ----- the layout of an expression determines it -----

  datatype First = FirstUse(s: Sym) | FirstGroup(kind: Kind, rows: seq<Rule>)

  function FirstOf(m: Metas, i: Items): First
    requires !i.End?
  {
    if i.Use? then FirstUse(i.s) else FirstGroup(i.kind, Flat(m, i.alts))
  }

  function KindOf(m: Metas, t: Sym): Kind {
    if t == m.lparen then Paren else if t == m.lsquare then Square else Curly
  }

  /** The first item read off a layout, and the layout of what follows it. */
  function ReadFirst(m: Metas, f: seq<Rule>): (First, seq<Rule>)
    requires f != [] && f[0] != []
  {
    var t, rest := f[0][0], [f[0][1..]] + f[1..];
    if m.IsLeft(t) then
      var x := Scan(m.Left(KindOf(m, t)), m.Right(KindOf(m, t)), rest, 0);
      (FirstGroup(KindOf(m, t), x.taken), [x.tail] + x.left)
    else
      (FirstUse(t), rest)
  }

  lemma ReadFirstUse(m: Metas, f: seq<Rule>, f': seq<Rule>, t: Sym)
    requires f != [] && f' != [] && f[0] == [t] + f'[0] && f[1..] == f'[1..] && !m.IsMeta(t)
    ensures ReadFirst(m, f) == (FirstUse(t), f') && Size(f') < Size(f)
  {
    assert f' == [f'[0]] + f'[1..] && f[0][1..] == f'[0];
  }

  lemma ReadFirstGroup(m: Metas, f: seq<Rule>, f': seq<Rule>, k: Kind, fb: seq<Rule>)
    requires m.Distinct() && f != [] && f' != [] && f[0] != [] && f[0][0] == m.Left(k)
    requires Scan(m.Left(k), m.Right(k), [f[0][1..]] + f[1..], 0) == Extract(fb, f'[0], f'[1..], true)
    ensures ReadFirst(m, f) == (FirstGroup(k, fb), f') && Size(f') < Size(f) && Size(fb) < Size(f)
  {
    var rest := [f[0][1..]] + f[1..];
    assert f' == [f'[0]] + f'[1..] && rest[1..] == f[1..];
    ScanCounts(m, m.Left(k), m.Right(k), rest, 0);
  }

  lemma Peel(m: Metas, a: Alts)
    requires m.Distinct() && Plain(m, a) && !a.items.End?
    ensures Plain(m, WithItems(a, a.items.tail)) && Flat(m, a)[0] != []
    ensures ReadFirst(m, Flat(m, a)) == (FirstOf(m, a.items), Flat(m, WithItems(a, a.items.tail)))
    ensures Size(Flat(m, WithItems(a, a.items.tail))) < Size(Flat(m, a))
    ensures a.items.Group? ==> Plain(m, a.items.alts) && Size(Flat(m, a.items.alts)) < Size(Flat(m, a))
  {
    if a.items.Use? {
      RestUse(m, a);
      ReadFirstUse(m, Flat(m, a), Flat(m, WithItems(a, a.items.tail)), a.items.s);
    } else {
      RestGroup(m, a);
      ReadFirstGroup(m, Flat(m, a), Flat(m, WithItems(a, a.items.tail)), a.items.kind, Flat(m, a.items.alts));
    }
  }

  lemma {:induction false} LayoutUnique(m: Metas, a: Alts, b: Alts)
    requires m.Distinct() && Plain(m, a) && Plain(m, b) && Flat(m, a) == Flat(m, b)
    ensures a == b
    decreases Size(Flat(m, a)), |Flat(m, a)|
  {
    var f := Flat(m, a);
    RestStart(m, a); RestStart(m, b);
    if f[0] == [] {
      if a.Either? && b.Either? {
        assert f == [f[0]] + f[1..];
        LayoutUnique(m, a.more, b.more);
      }
    } else {
      Peel(m, a); Peel(m, b);
      if a.items.Group? { LayoutUnique(m, a.items.alts, b.items.alts); }
      LayoutUnique(m, WithItems(a, a.items.tail), WithItems(b, b.items.tail));
    }
  }

  lemma {:induction false} RepAltsLower(R: Rules, e: Sym, lo: nat, lo': nat, a: Alts, rows: seq<Rule>)
    requires RepAlts(R, e, lo, a, rows, []) && lo' <= lo
    ensures RepAlts(R, e, lo', a, rows, [])
  {
    RepItemsLower(R, e, lo, lo', a.items, Stem(rows[0], []));
    if a.Either? { RepAltsLower(R, e, lo, lo', a.more, rows[1..]); }
  }

  /** The rules of s in R stand for the expression laid out by its rules in R0, if there is one. */
  ghost predicate Expressed(m: Metas, R0: Rules, R: Rules, e: Sym, s: Sym)
    requires s < |R0| <= |R|
  {
    forall a {:trigger Layout(m, a, R0[s])} :: Layout(m, a, R0[s]) ==> RepAlts(R, e, |R0|, a, R[s], [])
  }

  /** What deebnf makes of R0. */
  ghost predicate Deebnfed(m: Metas, R0: Rules, R: Rules, e: Option<Sym>) {
    && |R0| <= |R|
    && (forall s :: 0 <= s < |R0| && (m.IsMeta(s) || R0[s] == []) ==> R[s] == R0[s])
    && (forall s :: 0 <= s < |R| && !m.IsMeta(s) ==> BracketFree(m, R[s]))
    && (e.Some? ==> forall s {:trigger Expressed(m, R0, R, e.value, s)} ::
      0 <= s < |R0| && !m.IsMeta(s) ==> Expressed(m, R0, R, e.value, s))
  }

  predicate MetasTerminal(m: Metas, R: Rules) {
    forall s :: 0 <= s < |R| && m.IsMeta(s) ==> R[s] == []
  }

  ghost predicate AllWellFormed(m: Metas, R: Rules, n: nat)
    requires n <= |R|
  {
    forall s :: 0 <= s < n && !m.IsMeta(s) && R[s] != [] ==> WellFormed(m, R[s])
  }

  /** getdelsym of one bracket: it has to be terminal. */
  method CheckMeta(g: Grammar, s: Sym)
    requires s < |g.rules|
    modifies g`errors
    ensures g.errors == old(g.errors) + (if g.rules[s] != [] then 1 else 0)
  {
    if g.rules[s] != [] { Error(g); }
  }

  method CheckMetas(g: Grammar, m: Metas)
    requires m.Below(|g.rules|)
    modifies g`errors
    ensures g.errors >= old(g.errors) && (g.errors == old(g.errors) <==> MetasTerminal(m, g.rules))
  {
    CheckMeta(g, m.lparen);
    CheckMeta(g, m.rparen);
    CheckMeta(g, m.lsquare);
    CheckMeta(g, m.rsquare);
    CheckMeta(g, m.lcurly);
    CheckMeta(g, m.rcurly);
  }

  /** The first i symbols of R0 are done. */
  ghost predicate Partly(m: Metas, R0: Rules, R: Rules, S: seq<State>, e: Option<Sym>, i: nat) {
    && i <= |R| == |S| && |R0| <= |R|
    && (forall s {:trigger R[s]} :: 0 <= s < |R0| && (m.IsMeta(s) || R0[s] == [] || i <= s) ==> R[s] == R0[s])
    && (forall s {:trigger S[s]} :: i <= s < |R0| ==> S[s] == Untouched)
    && (forall s {:trigger R[s]} {:trigger S[s]} :: |R0| <= s < |R| ==> BracketFree(m, R[s]) && S[s] == Touched)
    && (forall s :: 0 <= s < i && s < |R0| && !m.IsMeta(s) ==> BracketFree(m, R[s]))
    && (e.Some? ==> forall s {:trigger Expressed(m, R0, R, e.value, s)} ::
      0 <= s < i && s < |R0| && !m.IsMeta(s) ==> Expressed(m, R0, R, e.value, s))
  }

  lemma PartlyStep(m: Metas, R0: Rules, R: Rules, S: seq<State>, R': Rules, S': seq<State>, e: Option<Sym>, i: nat,
      a: Option<Alts>)
    requires m.Distinct() && i < |R0| && !m.IsMeta(i) && Partly(m, R0, R, S, e, i)
    requires Grown(m, R, S, R', S', i) && BracketFree(m, R'[i]) && (R0[i] == [] ==> R' == R)
    requires e.Some? && WellFormed(m, R0[i]) ==>
      a.Some? && Layout(m, a.value, R0[i]) && RepAlts(R', e.value, |R|, a.value, R'[i], [])
    ensures Partly(m, R0, R', S', e, i + 1)
  {
    forall s | 0 <= s < |R0| && (m.IsMeta(s) || R0[s] == [] || i + 1 <= s) ensures R'[s] == R0[s] {
      if s != i { assert R'[s] == R[s]; }
    }
    forall s | i + 1 <= s < |R0| ensures S'[s] == Untouched { assert S'[s] == S[s]; }
    forall s | |R0| <= s < |R'| ensures BracketFree(m, R'[s]) && S'[s] == Touched {
      if s < |R| { assert R'[s] == R[s] && S'[s] == S[s]; }
    }
    if e.Some? {
      forall s | 0 <= s < i + 1 && s < |R0| && !m.IsMeta(s) ensures Expressed(m, R0, R', e.value, s) {
        if s < i { assert Expressed(m, R0, R, e.value, s); }
        forall b | Layout(m, b, R0[s]) ensures RepAlts(R', e.value, |R0|, b, R'[s], []) {
          if s < i {
            assert R'[s] == R[s];
            RepAltsKept(R, R', e.value, |R0|, b, R[s], []);
          } else {
            assert WellFormed(m, R0[i]);
            LayoutUnique(m, a.value, b);
            RepAltsLower(R', e.value, |R|, |R0|, b, R'[s]);
          }
        }
      }
    }
  }

  lemma PartlyStart(m: Metas, R0: Rules, S: seq<State>, e: Option<Sym>)
    requires |S| == |R0| && forall s :: 0 <= s < |R0| ==> S[s] == Untouched
    ensures Partly(m, R0, R0, S, e, 0)
  {
  }

  lemma PartlySkip(m: Metas, R0: Rules, R: Rules, S: seq<State>, e: Option<Sym>, i: nat)
    requires Partly(m, R0, R, S, e, i) && i < |R| && (m.IsMeta(i) || S[i] != Untouched)
    ensures Partly(m, R0, R, S, e, i + 1) && (i < |R0| ==> m.IsMeta(i))
  {
  }

  function Min(a: nat, b: nat): nat { if a < b then a else b }

  /** The main loop of deebnf before symbol s; silent says that no rule was complained about. */
  ghost predicate Rewriting(m: Metas, R0: Rules, R: Rules, S: seq<State>, e: Option<Sym>, s: nat, silent: bool) {
    && Partly(m, R0, R, S, e, s)
    && (silent ==> AllWellFormed(m, R0, Min(s, |R0|)))
    && (e.Some? && AllWellFormed(m, R0, |R0|) ==> silent)
  }

  lemma RewritingStart(m: Metas, R0: Rules, S: seq<State>, e: Option<Sym>)
    requires |S| == |R0| && forall s :: 0 <= s < |R0| ==> S[s] == Untouched
    ensures Rewriting(m, R0, R0, S, e, 0, true)
  {
    PartlyStart(m, R0, S, e);
  }

  lemma RewritingSkip(m: Metas, R0: Rules, R: Rules, S: seq<State>, e: Option<Sym>, s: nat, silent: bool)
    requires Rewriting(m, R0, R, S, e, s, silent) && s < |R| && (m.IsMeta(s) || S[s] != Untouched)
    ensures Rewriting(m, R0, R, S, e, s + 1, silent)
  {
    PartlySkip(m, R0, R, S, e, s);
  }

  /** An untouched symbol that is no bracket is one of the old ones. */
  lemma RewritingOld(m: Metas, R0: Rules, R: Rules, S: seq<State>, e: Option<Sym>, s: nat, silent: bool)
    requires Rewriting(m, R0, R, S, e, s, silent) && s < |R| && S[s] == Untouched
    ensures s < |R0| && R[s] == R0[s]
  {
  }

  lemma RewritingDone(m: Metas, R0: Rules, R: Rules, S: seq<State>, e: Option<Sym>, silent: bool)
    requires Rewriting(m, R0, R, S, e, |R|, silent)
    ensures Deebnfed(m, R0, R, e) && (silent ==> AllWellFormed(m, R0, |R0|))
    ensures e.Some? && AllWellFormed(m, R0, |R0|) ==> silent
  {
  }

  method ProcessSymbol(g: Grammar, m: Metas, s: Sym, ghost R0: Rules, ghost silent: bool)
    requires Ready(m, g) && Rewriting(m, R0, g.rules, g.state, g.emptypt, s, silent) && s < |R0| && !m.IsMeta(s)
    modifies g`rules, g`state, g`errors
    ensures Ready(m, g) && g.errors >= old(g.errors)
    ensures Rewriting(m, R0, g.rules, g.state, g.emptypt, s + 1, silent && g.errors == old(g.errors))
  {
    ghost var R, S, a := g.rules, g.state, Option<Alts>.None;
    if g.emptypt.Some? && WellFormed(m, R0[s]) {
      ghost var b :| Layout(m, b, R0[s]);
      a := Some(b);
    }
    Process(g, m, s, RowLefts(m, g.rules[s]), a);
    PartlyStep(m, R0, R, S, g.rules, g.state, g.emptypt, s, a);
  }

  /** The body of the main loop of deebnf. */
  method ProcessNext(g: Grammar, m: Metas, s: Sym, ghost R0: Rules, ghost silent: bool)
    requires Ready(m, g) && Rewriting(m, R0, g.rules, g.state, g.emptypt, s, silent) && s < |g.rules|
    modifies g`rules, g`state, g`errors
    ensures Ready(m, g) && g.errors >= old(g.errors) && (s >= |R0| ==> g.rules == old(g.rules))
    ensures s < |g.rules| && Rewriting(m, R0, g.rules, g.state, g.emptypt, s + 1, silent && g.errors == old(g.errors))
  {
    if !m.IsMeta(s) && g.state[s] == Untouched {
      RewritingOld(m, R0, g.rules, g.state, g.emptypt, s, silent);
      ProcessSymbol(g, m, s, R0, silent);
    } else {
      RewritingSkip(m, R0, g.rules, g.state, g.emptypt, s, silent);
    }
  }

  /** The main loop of deebnf. */
  method ProcessAll(g: Grammar, m: Metas)
    requires Ready(m, g) && forall s :: 0 <= s < |g.rules| ==> g.state[s] == Untouched
    modifies g`rules, g`state, g`errors
    ensures Deebnfed(m, old(g.rules), g.rules, g.emptypt) && g.errors >= old(g.errors)
    ensures g.errors == old(g.errors) ==> AllWellFormed(m, old(g.rules), old(|g.rules|))
    ensures g.emptypt.Some? && AllWellFormed(m, old(g.rules), old(|g.rules|)) ==> g.errors == old(g.errors)
  {
    ghost var R0, silent := g.rules, true;
    RewritingStart(m, R0, g.state, g.emptypt);
    var s: nat := 0;
    while s < |g.rules|
      invariant Ready(m, g) && Rewriting(m, R0, g.rules, g.state, g.emptypt, s, silent) && s <= |g.rules|
      invariant g.errors >= old(g.errors) && (silent <==> g.errors == old(g.errors))
      decreases |R0| - Min(s, |R0|), |g.rules| - s
    {
      ghost var before := g.errors;
      ProcessNext(g, m, s, R0, silent);
      silent := silent && g.errors == before;
      s := s + 1;
    }
    RewritingDone(m, R0, g.rules, g.state, g.emptypt, silent);
  }

  /** Removes the brackets.  It stays silent exactly when the brackets are terminals and all the rules are
      properly bracketed. */
  method Deebnf(g: Grammar, m: Metas)
    requires m.Distinct() && m.Below(|g.rules|) && |g.state| == |g.rules|
    requires g.emptypt.Some? ==> !m.IsMeta(g.emptypt.value)
    modifies g`rules, g`state, g`errors
    ensures Deebnfed(m, old(g.rules), g.rules, g.emptypt)
    ensures g.errors == old(g.errors) ==>
      MetasTerminal(m, old(g.rules)) && AllWellFormed(m, old(g.rules), old(|g.rules|))
    ensures g.emptypt.Some? && MetasTerminal(m, old(g.rules)) && AllWellFormed(m, old(g.rules), old(|g.rules|)) ==>
      g.errors == old(g.errors)
  {
    CheckMetas(g, m);
    g.state := seq(|g.rules|, _ => Untouched);
    ProcessAll(g, m);
  }
}
