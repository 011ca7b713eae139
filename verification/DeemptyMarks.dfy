/** deempty.c: what the marks that its first loop stops at mean. */
module Marks {
  import opened Grammars
  import opened Reachability
  import opened Deempting

  // ----- the least marks -----

  /** The marks reached are themselves enough, ... */
  lemma MarkedSuffices(R: Rules, e: Sym, st: seq<State>, ps: seq<seq<State>>)
    requires Marked(R, e, st, ps)
    ensures Suffices(R, e, st, ps)
  {
    forall s, k | 0 <= s < |R| && 0 <= k < |R[s]|
      ensures Rank(RuleMark(IsEmpty, R[s][k], st)) <= Rank(ps[s][k])
    {
      RuleMarkIsMax(IsEmpty, R[s][k], st);
      assert IsMark(ps[s][k]);
    }
  }

  /** ... and so they are the only least ones: the grammar alone decides every mark. */
  lemma MarksUnique(R: Rules, e: Sym, st: seq<State>, ps: seq<seq<State>>, st': seq<State>, ps': seq<seq<State>>)
    requires Marked(R, e, st, ps) && Marked(R, e, st', ps')
    ensures st == st' && ps == ps'
  {
    MarkedSuffices(R, e, st, ps);
    MarkedSuffices(R, e, st', ps');
    RisenTrans(st, st', st);
    RowsRisenTrans(R, st, ps, ps', ps);
  }

  // ----- NONEMPTY -----

  /** Each member is the empty symbol or has a rule made of members only.  The union of all such sets
      is the greatest set of symbols that could be taken for possibly empty. */
  ghost predicate SelfSupporting(R: Rules, e: Sym, T: set<Sym>) {
    forall t {:trigger t in T} :: t in T ==> t < |R| && (t == e || SupportedBy(R, t, T))
  }

  ghost predicate SupportedBy(R: Rules, t: Sym, T: set<Sym>) {
    exists k :: 0 <= k < |RulesOf(R, t)| && Within(RulesOf(R, t)[k], T)
  }

  ghost predicate Within(body: Rule, T: set<Sym>) {
    forall i :: 0 <= i < |body| ==> body[i] in T
  }

  ghost predicate Avoids(st: seq<State>, T: set<Sym>) {
    forall t :: t in T ==> MarkOf(st, t) != NON_EMPTY
  }

  /** Marks with m for T and NONEMPTY elsewhere. */
  ghost function MarksFor(R: Rules, T: set<Sym>, m: State): seq<State> {
    seq(|R|, s requires 0 <= s < |R| => if s in T then m else NON_EMPTY)
  }

  ghost function RowFor(row: seq<Rule>, T: set<Sym>, m: State): seq<State> {
    seq(|row|, k requires 0 <= k < |row| => if Within(row[k], T) then m else NON_EMPTY)
  }

  ghost function RowsFor(R: Rules, T: set<Sym>, m: State): seq<seq<State>> {
    seq(|R|, s requires 0 <= s < |R| => RowFor(R[s], T, m))
  }

  /** They are enough if every member that has rules may be given m for them. */
  lemma ForSuffices(R: Rules, e: Sym, T: set<Sym>, m: State)
    requires m == IsEmpty || m == CanBeEmpty
    requires forall t :: t in T && t < |R| && R[t] == [] ==> t == e
    requires forall t {:trigger t in T} :: t in T ==>
      t < |R| && (R[t] != [] ==> Rank(SymbolMark(RowFor(R[t], T, m))) <= Rank(m))
    ensures Suffices(R, e, MarksFor(R, T, m), RowsFor(R, T, m))
  {
    var M, Q := MarksFor(R, T, m), RowsFor(R, T, m);
    forall s, k | 0 <= s < |R| && 0 <= k < |R[s]| ensures Rank(RuleMark(IsEmpty, R[s][k], M)) <= Rank(Q[s][k]) {
      RuleMarkIsMax(IsEmpty, R[s][k], M);
      forall i | 0 <= i < |R[s][k]| && R[s][k][i] in T ensures MarkOf(M, R[s][k][i]) == m {}
    }
  }

  /** No member of a self-supporting set is NONEMPTY. */
  lemma SupportedAvoids(R: Rules, e: Sym, st: seq<State>, ps: seq<seq<State>>, T: set<Sym>)
    requires Marked(R, e, st, ps) && e < |R| && R[e] == [] && SelfSupporting(R, e, T)
    ensures Avoids(st, T)
  {
    forall t | t in T && R[t] != [] && t != e ensures Rank(SymbolMark(RowFor(R[t], T, CanBeEmpty))) <= 1 {
      assert SupportedBy(R, t, T);
      var k :| 0 <= k < |R[t]| && Within(R[t][k], T);
      assert RowFor(R[t], T, CanBeEmpty)[k] == CanBeEmpty;
    }
    ForSuffices(R, e, T, CanBeEmpty);
    assert Risen(st, MarksFor(R, T, CanBeEmpty));
  }

  ghost function Unmarked(st: seq<State>): set<Sym> {
    set s | 0 <= s < |st| && st[s] != NON_EMPTY
  }

  lemma UnmarkedSupported(R: Rules, e: Sym, st: seq<State>, ps: seq<seq<State>>, t: Sym)
    requires Marked(R, e, st, ps) && Closed(R) && t in Unmarked(st) && t != e
    ensures SupportedBy(R, t, Unmarked(st))
  {
    assert R[t] != [] && SymbolMark(ps[t]) != NON_EMPTY;
    var k :| 0 <= k < |ps[t]| && ps[t][k] != NON_EMPTY;
    forall i | 0 <= i < |R[t][k]| ensures R[t][k][i] in Unmarked(st) {
      assert MarkOf(st, R[t][k][i]) != NON_EMPTY by { assert !SomeNonEmpty(st, R[t][k]); }
    }
    assert Within(RulesOf(R, t)[k], Unmarked(st));
  }

  /** The symbols that are not NONEMPTY support themselves: they form the greatest self-supporting set. */
  lemma UnmarkedSelfSupporting(R: Rules, e: Sym, st: seq<State>, ps: seq<seq<State>>)
    requires Marked(R, e, st, ps) && Closed(R) && e < |R| && R[e] == []
    ensures SelfSupporting(R, e, Unmarked(st))
    ensures forall T: set<Sym> :: SelfSupporting(R, e, T) ==> T <= Unmarked(st)
  {
    forall t | t in Unmarked(st) && t != e ensures SupportedBy(R, t, Unmarked(st)) {
      UnmarkedSupported(R, e, st, ps, t);
    }
    forall T: set<Sym> | SelfSupporting(R, e, T) ensures T <= Unmarked(st) {
      SupportedAvoids(R, e, st, ps, T);
    }
  }

  // ----- ISEMPTY -----

  /** No terminal but the empty symbol can be reached from s. */
  ghost predicate ReachesNothing(R: Rules, e: Sym, s: Sym) {
    forall x :: Reaches(R, s, x) && Terminal(R, x) ==> x == e
  }

  ghost function Fruitless(R: Rules, e: Sym): set<Sym> {
    set s | 0 <= s < |R| && ReachesNothing(R, e, s)
  }

  lemma FruitlessWithin(R: Rules, e: Sym, s: Sym, k: nat)
    requires Closed(R) && s in Fruitless(R, e) && k < |R[s]|
    ensures Within(R[s][k], Fruitless(R, e))
  {
    forall i | 0 <= i < |R[s][k]| ensures R[s][k][i] in Fruitless(R, e) {
      var y := R[s][k][i];
      assert y < |R| && Refers(R, s, y) by { assert y in RulesOf(R, s)[k]; }
      forall x | Reaches(R, y, x) && Terminal(R, x) ensures x == e { ReachesVia(R, s, y, x); }
    }
  }

  /** Such symbols are ISEMPTY, ... */
  lemma FruitlessEmpty(R: Rules, e: Sym, st: seq<State>, ps: seq<seq<State>>, s: Sym)
    requires Marked(R, e, st, ps) && Closed(R) && s in Fruitless(R, e)
    ensures st[s] == IsEmpty
  {
    var T := Fruitless(R, e);
    forall t | t in T && R[t] == [] ensures t == e { ReachesSelf(R, t); }
    forall t | t in T && R[t] != [] ensures SymbolMark(RowFor(R[t], T, IsEmpty)) == IsEmpty {
      forall k | 0 <= k < |R[t]| ensures RowFor(R[t], T, IsEmpty)[k] == IsEmpty { FruitlessWithin(R, e, t, k); }
    }
    ForSuffices(R, e, T, IsEmpty);
    assert Risen(st, MarksFor(R, T, IsEmpty));
  }

  /** ... and no others are: everything reached from an ISEMPTY symbol is ISEMPTY. */
  lemma EmptyReaches(R: Rules, e: Sym, st: seq<State>, ps: seq<seq<State>>, s: Sym, x: Sym)
    requires Marked(R, e, st, ps) && s < |R| && st[s] == IsEmpty && Reaches(R, s, x)
    ensures x < |R| && st[x] == IsEmpty
  {
    var marks := set t | 0 <= t < |R| && st[t] == IsEmpty;
    forall a, b | a in marks && Refers(R, a, b) ensures b in marks {
      var k :| 0 <= k < |RulesOf(R, a)| && b in RulesOf(R, a)[k];
      assert ps[a][k] == IsEmpty;
      var i :| 0 <= i < |R[a][k]| && R[a][k][i] == b;
      assert MarkOf(st, R[a][k][i]) == IsEmpty;
    }
    var p :| Path(R, p) && p[0] == s && p[|p| - 1] == x;
    ClosedMarks(R, marks, p);
  }

  /** What each of the three marks means, in terms of the rules alone. */
  lemma MarksMean(R: Rules, e: Sym, st: seq<State>, ps: seq<seq<State>>, s: Sym)
    requires Marked(R, e, st, ps) && Closed(R) && e < |R| && R[e] == [] && s < |R|
    ensures IsMark(st[s])
    ensures st[s] == IsEmpty <==> ReachesNothing(R, e, s)
    ensures st[s] == NON_EMPTY <==> !PossiblyEmpty(R, e, s)
  {
    if ReachesNothing(R, e, s) { FruitlessEmpty(R, e, st, ps, s); }
    if st[s] == IsEmpty {
      forall x | Reaches(R, s, x) && Terminal(R, x) ensures x == e { EmptyReaches(R, e, st, ps, s, x); }
    }
    UnmarkedSelfSupporting(R, e, st, ps);
    if st[s] != NON_EMPTY { assert s in Unmarked(st); }
  }

  /** s is in some self-supporting set. */
  ghost predicate PossiblyEmpty(R: Rules, e: Sym, s: Sym) {
    exists T :: SelfSupporting(R, e, T) && s in T
  }
}
