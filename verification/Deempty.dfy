/** deempty.c: removes the empty symbol from a grammar. */
module Deempting {
  import opened Grammars
  import opened SameRules

  // ----- marks -----

  /** deempty.c reuses TOUCHED for symbols and rules that cannot be empty. */
  const NON_EMPTY: State := Touched

  function Rank(m: State): nat {
    match m
    case IsEmpty => 0
    case CanBeEmpty => 1
    case _ => 2
  }

  predicate IsMark(m: State) { m != Untouched }

  function MarkOf(st: seq<State>, x: Sym): State {
    if x < |st| then st[x] else NON_EMPTY
  }

  /** The effect of one element with mark x on the mark m of its rule (the inner loop of checkempty). */
  function Raise(m: State, x: State): State {
    if x == NON_EMPTY then NON_EMPTY
    else if x == CanBeEmpty && m == IsEmpty then CanBeEmpty
    else m
  }

  function RuleMark(m: State, body: Rule, st: seq<State>): State {
    if body == [] then m else Raise(RuleMark(m, body[..|body| - 1], st), MarkOf(st, body[|body| - 1]))
  }

  /** The mark of a symbol with these rule marks (the conclusion of checkempty). */
  function SymbolMark(ps: seq<State>): State {
    if forall k :: 0 <= k < |ps| ==> ps[k] == IsEmpty then IsEmpty
    else if forall k :: 0 <= k < |ps| ==> ps[k] == NON_EMPTY then NON_EMPTY
    else CanBeEmpty
  }

  ghost predicate AllMarks(st: seq<State>) {
    forall i :: 0 <= i < |st| ==> IsMark(st[i])
  }

  /** The mark of a rule is the highest mark among its start value and its elements. */
  lemma {:induction false} RuleMarkIsMax(m: State, body: Rule, st: seq<State>)
    requires IsMark(m) && AllMarks(st)
    ensures var r := RuleMark(m, body, st); IsMark(r) && Rank(m) <= Rank(r)
    ensures forall i :: 0 <= i < |body| ==> Rank(MarkOf(st, body[i])) <= Rank(RuleMark(m, body, st))
    ensures RuleMark(m, body, st) == m || exists i :: 0 <= i < |body| && MarkOf(st, body[i]) == RuleMark(m, body, st)
  {
    if body != [] {
      var b := body[..|body| - 1];
      RuleMarkIsMax(m, b, st);
      assert body == b + [body[|body| - 1]];
      if RuleMark(m, body, st) == RuleMark(m, b, st) && RuleMark(m, b, st) != m {
        var i :| 0 <= i < |b| && MarkOf(st, b[i]) == RuleMark(m, b, st);
        assert body[i] == b[i];
      }
    }
  }

  // ----- checkempty -----

  ghost predicate Shaped(R: Rules, st: seq<State>, ps: seq<seq<State>>) {
    && |st| == |ps| == |R| && AllMarks(st)
    && forall s :: 0 <= s < |R| ==> |ps[s]| == |R[s]| && AllMarks(ps[s])
  }

  ghost function NewRow(R: Rules, st: seq<State>, ps: seq<seq<State>>, s: Sym): seq<State>
    requires Shaped(R, st, ps) && s < |R|
  {
    seq(|R[s]|, k requires 0 <= k < |R[s]| => RuleMark(ps[s][k], R[s][k], st))
  }

  /** The inner loop of checkempty: the new state of one rule. */
  method ScanRule(g: Grammar, s: Sym, p: nat) returns (pst: State)
    requires Shaped(g.rules, g.state, g.pstate) && s < |g.rules| && p < |g.rules[s]|
    ensures pst == RuleMark(g.pstate[s][p], g.rules[s][p], g.state) && IsMark(pst)
  {
    var body := g.rules[s][p];
    pst := g.pstate[s][p];
    var e := 0;
    while e < |body|
      invariant 0 <= e <= |body| && pst == RuleMark(g.pstate[s][p], body[..e], g.state)
    {
      assert body[..e + 1][..e] == body[..e];
      var x := MarkOf(g.state, body[e]);
      if x == NON_EMPTY {
        pst := NON_EMPTY;
      } else if x == CanBeEmpty {
        if pst == IsEmpty { pst := CanBeEmpty; }
      }
      e := e + 1;
    }
    assert body[..e] == body;
    RuleMarkIsMax(g.pstate[s][p], body, g.state);
  }

  /** Re-marks one rule. */
  method MarkRule(g: Grammar, s: Sym, p: nat) returns (pst: State)
    requires Shaped(g.rules, g.state, g.pstate) && s < |g.rules| && p < |g.rules[s]|
    modifies g`pstate, g`changed
    ensures pst == old(RuleMark(g.pstate[s][p], g.rules[s][p], g.state)) && IsMark(pst)
    ensures g.pstate == old(g.pstate[s := g.pstate[s][p := pst]])
    ensures g.changed == (old(g.changed) || old(g.pstate[s][p]) != pst)
  {
    pst := ScanRule(g, s, p);
    if g.pstate[s][p] != pst {
      g.pstate := g.pstate[s := g.pstate[s][p := pst]];
      g.changed := true;
    } else {
      assert g.pstate[s][p := pst] == g.pstate[s] && g.pstate[s := g.pstate[s]] == g.pstate;
    }
  }

  /** A row of rule marks of which the first p are final. */
  ghost predicate Partly(row: seq<State>, before: seq<State>, after: seq<State>, p: nat) {
    |row| == |before| == |after| && forall k :: 0 <= k < |row| ==> row[k] == if k < p then after[k] else before[k]
  }

  lemma PartlyNext(row: seq<State>, before: seq<State>, after: seq<State>, p: nat)
    requires Partly(row, before, after, p) && p < |row|
    ensures var row' := row[p := after[p]];
      Partly(row', before, after, p + 1) && (row' != before <==> row != before || after[p] != before[p])
  {
    var row' := row[p := after[p]];
    if row != before {
      var k :| 0 <= k < |row| && row[k] != before[k];
      assert row'[k] != before[k];
    } else if after[p] != before[p] {
      assert row'[p] != before[p];
    }
  }

  /** The rule marks of s have come as far as p, and nothing else was touched. */
  ghost predicate RowMarked(ps: seq<seq<State>>, now: seq<seq<State>>, s: Sym, after: seq<State>, p: nat) {
    |now| == |ps| && s < |ps| && now == ps[s := now[s]] && Partly(now[s], ps[s], after, p)
  }

  lemma RowMarkedShaped(R: Rules, st: seq<State>, ps: seq<seq<State>>, now: seq<seq<State>>, s: Sym, p: nat)
    requires Shaped(R, st, ps) && s < |R| && RowMarked(ps, now, s, NewRow(R, st, ps, s), p)
    ensures Shaped(R, st, now)
  {
    forall k | 0 <= k < |R[s]| ensures IsMark(now[s][k]) { RuleMarkIsMax(ps[s][k], R[s][k], st); }
  }

  /** Re-marking rule p brings the row one further. */
  lemma RowStep(R: Rules, st: seq<State>, ps: seq<seq<State>>, now: seq<seq<State>>, s: Sym, p: nat)
    requires Shaped(R, st, ps) && s < |R| && p < |R[s]| && RowMarked(ps, now, s, NewRow(R, st, ps, s), p)
    ensures var after := NewRow(R, st, ps, s);
      && Shaped(R, st, now) && RuleMark(now[s][p], R[s][p], st) == after[p]
      && RowMarked(ps, now[s := now[s][p := after[p]]], s, after, p + 1)
      && (now[s][p := after[p]] != ps[s] <==> now[s] != ps[s] || after[p] != now[s][p])
  {
    RowMarkedShaped(R, st, ps, now, s, p);
    PartlyNext(now[s], ps[s], NewRow(R, st, ps, s), p);
  }

  ghost predicate Seen(ps: seq<State>, p: nat, m: State) {
    exists k :: 0 <= k < p && k < |ps| && ps[k] == m
  }

  lemma SeenNext(ps: seq<State>, p: nat, m: State)
    requires p < |ps|
    ensures Seen(ps, p + 1, m) <==> Seen(ps, p, m) || ps[p] == m
  {
    if ps[p] == m { assert Seen(ps, p + 1, m); }
  }

  /** Which marks occur among the first p rules. */
  ghost predicate Flags(ps: seq<State>, p: nat, anyempty: bool, anycanbe: bool, anynonempty: bool) {
    (anyempty <==> Seen(ps, p, IsEmpty)) && (anycanbe <==> Seen(ps, p, CanBeEmpty))
    && (anynonempty <==> Seen(ps, p, NON_EMPTY))
  }

  lemma FlagsNext(ps: seq<State>, p: nat, e: bool, c: bool, n: bool)
    requires p < |ps| && Flags(ps, p, e, c, n) && IsMark(ps[p])
    ensures Flags(ps, p + 1, e || ps[p] == IsEmpty, c || ps[p] == CanBeEmpty, n || ps[p] == NON_EMPTY)
  {
    SeenNext(ps, p, IsEmpty); SeenNext(ps, p, CanBeEmpty); SeenNext(ps, p, NON_EMPTY);
  }

  /** The outer loop of checkempty: re-marks the rules of s and notes which marks occur. */
  method CheckRules(g: Grammar, s: Sym) returns (anyempty: bool, anycanbe: bool, anynonempty: bool)
    requires Shaped(g.rules, g.state, g.pstate) && s < |g.rules|
    modifies g`pstate, g`changed
    ensures g.pstate == old(g.pstate[s := NewRow(g.rules, g.state, g.pstate, s)])
    ensures Shaped(g.rules, g.state, g.pstate)
    ensures g.changed == (old(g.changed) || g.pstate != old(g.pstate))
    ensures Flags(g.pstate[s], |g.pstate[s]|, anyempty, anycanbe, anynonempty)
  {
    ghost var R, st, ps := g.rules, g.state, g.pstate;
    ghost var after := NewRow(R, st, ps, s);
    anyempty, anynonempty, anycanbe := false, false, false;
    var p := 0;
    while p < |g.rules[s]|
      invariant 0 <= p <= |R[s]| && RowMarked(ps, g.pstate, s, after, p)
      invariant Flags(after, p, anyempty, anycanbe, anynonempty)
      invariant g.changed == (old(g.changed) || g.pstate[s] != ps[s])
    {
      RowStep(R, st, ps, g.pstate, s, p);
      var pst := MarkRule(g, s, p);
      FlagsNext(after, p, anyempty, anycanbe, anynonempty);
      if pst == IsEmpty {
        anyempty := true;
      } else if pst == CanBeEmpty {
        anycanbe := true;
      } else {
        anynonempty := true;
      }
      p := p + 1;
    }
    RowMarkedShaped(R, st, ps, g.pstate, s, p);
    assert g.pstate[s] == after;
  }

  method CheckEmpty(g: Grammar, s: Sym)
    requires Shaped(g.rules, g.state, g.pstate) && s < |g.rules| && g.rules[s] != []
    modifies g`state, g`pstate, g`changed
    ensures g.pstate == old(g.pstate[s := NewRow(g.rules, g.state, g.pstate, s)])
    ensures g.state == old(g.state)[s := SymbolMark(g.pstate[s])]
    ensures g.changed == (old(g.changed) || g.pstate != old(g.pstate) || g.state != old(g.state))
    ensures Shaped(g.rules, g.state, g.pstate)
  {
    var anyempty, anycanbe, anynonempty := CheckRules(g, s);
    var sstate;
    if anyempty && anynonempty {
      sstate := CanBeEmpty;
    } else if anycanbe {
      sstate := CanBeEmpty;
    } else if anyempty {
      sstate := IsEmpty;
    } else {
      sstate := NON_EMPTY;
    }
    SymbolMarkCases(g.pstate[s]);
    if g.state[s] != sstate {
      g.state := g.state[s := sstate];
      g.changed := true;
    }
  }

  lemma SymbolMarkCases(ps: seq<State>)
    requires ps != [] && AllMarks(ps)
    ensures SymbolMark(ps) == IsEmpty <==> !Seen(ps, |ps|, CanBeEmpty) && !Seen(ps, |ps|, NON_EMPTY)
    ensures SymbolMark(ps) == NON_EMPTY <==> !Seen(ps, |ps|, CanBeEmpty) && !Seen(ps, |ps|, IsEmpty)
    ensures IsMark(SymbolMark(ps))
  {
    assert ps[0] in {IsEmpty, CanBeEmpty, NON_EMPTY};
    forall k | 0 <= k < |ps| ensures Seen(ps, |ps|, ps[k]) {}
    if SymbolMark(ps) == NON_EMPTY { assert Seen(ps, |ps|, NON_EMPTY); }
  }

  // ----- the fixed point -----

  /** The mark of a rule is backed by one of its elements. */
  ghost predicate Backed(m: State, body: Rule, st: seq<State>) {
    m == IsEmpty || exists i :: 0 <= i < |body| && Rank(m) <= Rank(MarkOf(st, body[i]))
  }

  /** What every call of checkempty keeps. */
  ghost predicate Marking(R: Rules, e: Sym, st: seq<State>, ps: seq<seq<State>>) {
    && Shaped(R, st, ps)
    && (forall s :: 0 <= s < |R| && R[s] == [] ==> st[s] == if s == e then IsEmpty else NON_EMPTY)
    && (forall s :: 0 <= s < |R| && R[s] != [] ==> st[s] == SymbolMark(ps[s]))
    && (forall s, k {:trigger ps[s][k]} :: 0 <= s < |R| && 0 <= k < |R[s]| ==> Backed(ps[s][k], R[s][k], st))
    && (forall M, Q :: Suffices(R, e, M, Q) ==> Risen(st, M) && RowsRisen(ps, Q))
  }

  /** Marks that nowhere fall short of what the rules demand. */
  ghost predicate Suffices(R: Rules, e: Sym, M: seq<State>, Q: seq<seq<State>>) {
    && Shaped(R, M, Q)
    && (forall s :: 0 <= s < |R| && R[s] == [] && s != e ==> M[s] == NON_EMPTY)
    && (forall s :: 0 <= s < |R| && R[s] != [] ==> Rank(SymbolMark(Q[s])) <= Rank(M[s]))
    && (forall s, k {:trigger Q[s][k]} :: 0 <= s < |R| && 0 <= k < |R[s]| ==>
      Rank(RuleMark(IsEmpty, R[s][k], M)) <= Rank(Q[s][k]))
  }

  ghost predicate Risen(a: seq<State>, b: seq<State>) {
    |a| == |b| && forall i :: 0 <= i < |a| ==> Rank(a[i]) <= Rank(b[i])
  }

  ghost predicate RowsRisen(a: seq<seq<State>>, b: seq<seq<State>>) {
    |a| == |b| && forall s :: 0 <= s < |a| ==> Risen(a[s], b[s])
  }

  lemma SymbolMarkRises(a: seq<State>, b: seq<State>)
    requires AllMarks(a) && AllMarks(b) && Risen(a, b) && a != []
    ensures Rank(SymbolMark(a)) <= Rank(SymbolMark(b))
  {
    assert a[0] in {IsEmpty, CanBeEmpty, NON_EMPTY};
    if SymbolMark(b) == IsEmpty {
      forall k | 0 <= k < |a| ensures a[k] == IsEmpty { assert b[k] == IsEmpty; }
    } else if SymbolMark(a) == NON_EMPTY {
      forall k | 0 <= k < |b| ensures b[k] == NON_EMPTY { assert a[k] == NON_EMPTY && IsMark(b[k]); }
    }
  }

  lemma BackedRises(m: State, body: Rule, st: seq<State>, st': seq<State>)
    requires Backed(m, body, st) && Risen(st, st')
    ensures Backed(m, body, st')
  {
    if m != IsEmpty {
      var i :| 0 <= i < |body| && Rank(m) <= Rank(MarkOf(st, body[i]));
      assert Rank(m) <= Rank(MarkOf(st', body[i]));
    }
  }

  lemma NewRowRises(R: Rules, e: Sym, st: seq<State>, ps: seq<seq<State>>, s: Sym)
    requires Marking(R, e, st, ps) && s < |R| && R[s] != []
    ensures var row := NewRow(R, st, ps, s);
      Risen(ps[s], row) && AllMarks(row) && Risen(st, st[s := SymbolMark(row)]) && IsMark(SymbolMark(row))
    ensures forall k :: 0 <= k < |R[s]| ==> Backed(NewRow(R, st, ps, s)[k], R[s][k], st)
  {
    var row := NewRow(R, st, ps, s);
    forall k | 0 <= k < |R[s]| ensures Rank(ps[s][k]) <= Rank(row[k]) && IsMark(row[k]) && Backed(row[k], R[s][k], st) {
      RuleMarkIsMax(ps[s][k], R[s][k], st);
      assert Backed(ps[s][k], R[s][k], st);
    }
    SymbolMarkRises(ps[s], row);
    SymbolMarkCases(row);
  }

  /** A call of checkempty stays below whatever suffices. */
  lemma CheckBelow(R: Rules, e: Sym, st: seq<State>, ps: seq<seq<State>>, s: Sym, M: seq<State>, Q: seq<seq<State>>)
    requires Marking(R, e, st, ps) && s < |R| && R[s] != [] && Suffices(R, e, M, Q)
    ensures var row := NewRow(R, st, ps, s); Risen(row, Q[s]) && Risen(st[s := SymbolMark(row)], M)
  {
    var row := NewRow(R, st, ps, s);
    assert Risen(st, M) && Risen(ps[s], Q[s]);
    NewRowRises(R, e, st, ps, s);
    forall k | 0 <= k < |row| ensures Rank(row[k]) <= Rank(Q[s][k]) {
      RuleMarkIsMax(ps[s][k], R[s][k], st);
      RuleMarkIsMax(IsEmpty, R[s][k], M);
    }
    SymbolMarkRises(row, Q[s]);
  }

  /** One call of checkempty raises marks and keeps the invariant. */
  lemma CheckKeeps(R: Rules, e: Sym, st: seq<State>, ps: seq<seq<State>>, s: Sym)
    requires Marking(R, e, st, ps) && s < |R| && R[s] != [] && e < |R| && R[e] == []
    ensures var row := NewRow(R, st, ps, s);
      var st' := st[s := SymbolMark(row)];
      Marking(R, e, st', ps[s := row]) && Risen(st, st') && RowsRisen(ps, ps[s := row])
  {
    var row := NewRow(R, st, ps, s);
    var st', ps' := st[s := SymbolMark(row)], ps[s := row];
    NewRowRises(R, e, st, ps, s);
    forall t, k | 0 <= t < |R| && 0 <= k < |R[t]| ensures Backed(ps'[t][k], R[t][k], st') {
      assert Backed(ps[t][k], R[t][k], st);
      BackedRises(ps'[t][k], R[t][k], st, st');
    }
    forall M, Q | Suffices(R, e, M, Q) ensures Risen(st', M) && RowsRisen(ps', Q) {
      CheckBelow(R, e, st, ps, s, M, Q);
    }
  }

  ghost function SumRank(st: seq<State>): nat {
    if st == [] then 0 else Rank(st[0]) + SumRank(st[1..])
  }

  ghost function SumRows(ps: seq<seq<State>>): nat {
    if ps == [] then 0 else SumRank(ps[0]) + SumRows(ps[1..])
  }

  lemma {:induction false} SumRankRises(a: seq<State>, b: seq<State>)
    requires Risen(a, b) && AllMarks(a) && AllMarks(b)
    ensures SumRank(a) <= SumRank(b) <= 2 * |b| && (a != b ==> SumRank(a) < SumRank(b))
  {
    if a != [] {
      assert a == [a[0]] + a[1..] && b == [b[0]] + b[1..];
      SumRankRises(a[1..], b[1..]);
    }
  }

  /** The highest value the sum of rule marks can take. */
  ghost function Ceiling(R: Rules): nat {
    if R == [] then 0 else 2 * |R[0]| + Ceiling(R[1..])
  }

  lemma {:induction false} SumRowsRises(R: Rules, a: seq<seq<State>>, b: seq<seq<State>>)
    requires RowsRisen(a, b) && |R| == |a|
    requires forall s :: 0 <= s < |a| ==> AllMarks(a[s]) && AllMarks(b[s]) && |a[s]| == |R[s]|
    ensures SumRows(a) <= SumRows(b) <= Ceiling(R) && (a != b ==> SumRows(a) < SumRows(b))
  {
    if a != [] {
      assert a == [a[0]] + a[1..] && b == [b[0]] + b[1..];
      SumRankRises(a[0], b[0]);
      SumRowsRises(R[1..], a[1..], b[1..]);
    }
  }

  lemma RisenTrans(a: seq<State>, b: seq<State>, c: seq<State>)
    requires Risen(a, b) && Risen(b, c) && AllMarks(a) && AllMarks(b) && AllMarks(c)
    ensures Risen(a, c) && (a == c ==> b == a)
  {
    if a == c {
      forall i | 0 <= i < |a| ensures b[i] == a[i] { assert IsMark(a[i]) && IsMark(b[i]) && Rank(b[i]) == Rank(a[i]); }
    }
  }

  lemma RowsRisenTrans(R: Rules, st: seq<State>, a: seq<seq<State>>, b: seq<seq<State>>, c: seq<seq<State>>)
    requires Shaped(R, st, a) && Shaped(R, st, b) && Shaped(R, st, c) && RowsRisen(a, b) && RowsRisen(b, c)
    ensures RowsRisen(a, c) && (a == c ==> b == a)
  {
    forall s | 0 <= s < |a| ensures Risen(a[s], c[s]) && (a == c ==> b[s] == a[s]) {
      RisenTrans(a[s], b[s], c[s]);
    }
  }

  /** checkempty would change nothing for the first n symbols. */
  ghost predicate Stable(R: Rules, st: seq<State>, ps: seq<seq<State>>, n: nat)
    requires Shaped(R, st, ps) && n <= |R|
  {
    forall s {:trigger NewRow(R, st, ps, s)} :: 0 <= s < n && R[s] != [] ==> NewRow(R, st, ps, s) == ps[s]
  }

  /** From the marks st and ps a pass has come to st1 and ps1, before symbol s. */
  ghost predicate InRound(R: Rules, e: Sym, st: seq<State>, ps: seq<seq<State>>, st1: seq<State>, ps1: seq<seq<State>>,
      s: nat)
  {
    && s <= |R| && Shaped(R, st, ps) && Marking(R, e, st1, ps1) && Risen(st, st1) && RowsRisen(ps, ps1)
    && (st1 == st && ps1 == ps ==> Stable(R, st, ps, s))
  }

  lemma RoundStart(R: Rules, e: Sym, st: seq<State>, ps: seq<seq<State>>)
    requires Marking(R, e, st, ps)
    ensures InRound(R, e, st, ps, st, ps, 0)
  {
  }

  lemma RoundSkip(R: Rules, e: Sym, st: seq<State>, ps: seq<seq<State>>, st1: seq<State>, ps1: seq<seq<State>>, s: nat)
    requires InRound(R, e, st, ps, st1, ps1, s) && s < |R| && R[s] == []
    ensures InRound(R, e, st, ps, st1, ps1, s + 1)
  {
  }

  /** One call of checkempty in a pass: the marks end where they began only if they never changed. */
  lemma RoundStep(R: Rules, e: Sym, st: seq<State>, ps: seq<seq<State>>, st1: seq<State>, ps1: seq<seq<State>>, s: nat)
    requires InRound(R, e, st, ps, st1, ps1, s) && s < |R| && R[s] != [] && e < |R| && R[e] == []
    ensures var row := NewRow(R, st1, ps1, s);
      var st2, ps2 := st1[s := SymbolMark(row)], ps1[s := row];
      && InRound(R, e, st, ps, st2, ps2, s + 1)
      && (st2 == st && ps2 == ps <==> st1 == st && ps1 == ps && st2 == st1 && ps2 == ps1)
  {
    var row := NewRow(R, st1, ps1, s);
    var st2, ps2 := st1[s := SymbolMark(row)], ps1[s := row];
    CheckKeeps(R, e, st1, ps1, s);
    RisenTrans(st, st1, st2);
    RowsRisenTrans(R, st, ps, ps1, ps2);
    assert ps2 == ps1 ==> row == ps1[s];
  }

  /** One pass of the do-while loop over the symbol list. */
  method CheckRound(g: Grammar, ghost e: Sym)
    requires Marking(g.rules, e, g.state, g.pstate) && e < |g.rules| && g.rules[e] == []
    modifies g`state, g`pstate, g`changed
    ensures Marking(g.rules, e, g.state, g.pstate)
    ensures Risen(old(g.state), g.state) && RowsRisen(old(g.pstate), g.pstate)
    ensures g.changed <==> g.state != old(g.state) || g.pstate != old(g.pstate)
    ensures !g.changed ==> Stable(g.rules, g.state, g.pstate, |g.rules|)
  {
    ghost var R, st, ps := g.rules, g.state, g.pstate;
    g.changed := false;
    RoundStart(R, e, st, ps);
    var s := 0;
    while s < |g.rules|
      invariant 0 <= s <= |R| && InRound(R, e, st, ps, g.state, g.pstate, s)
      invariant g.changed <==> g.state != st || g.pstate != ps
    {
      if g.rules[s] != [] {
        RoundStep(R, e, st, ps, g.state, g.pstate, s);
        CheckEmpty(g, s);
      } else {
        RoundSkip(R, e, st, ps, g.state, g.pstate, s);
      }
      s := s + 1;
    }
  }

  /** The marks the loop of deempty stops at, in terms of the grammar alone. */
  ghost predicate Marked(R: Rules, e: Sym, st: seq<State>, ps: seq<seq<State>>) {
    && Marking(R, e, st, ps)
    && forall s, k {:trigger ps[s][k]} :: 0 <= s < |R| && 0 <= k < |R[s]| ==>
      && (ps[s][k] == IsEmpty <==> AllEmpty(st, R[s][k]))
      && (ps[s][k] == NON_EMPTY <==> SomeNonEmpty(st, R[s][k]))
  }

  ghost predicate AllEmpty(st: seq<State>, body: Rule) {
    forall i :: 0 <= i < |body| ==> MarkOf(st, body[i]) == IsEmpty
  }

  ghost predicate SomeNonEmpty(st: seq<State>, body: Rule) {
    exists i :: 0 <= i < |body| && MarkOf(st, body[i]) == NON_EMPTY
  }

  lemma StableMarks(R: Rules, e: Sym, st: seq<State>, ps: seq<seq<State>>)
    requires Marking(R, e, st, ps) && Stable(R, st, ps, |R|)
    ensures Marked(R, e, st, ps)
  {
    forall s, k | 0 <= s < |R| && 0 <= k < |R[s]|
      ensures ps[s][k] == IsEmpty <==> AllEmpty(st, R[s][k])
      ensures ps[s][k] == NON_EMPTY <==> SomeNonEmpty(st, R[s][k])
    {
      assert NewRow(R, st, ps, s)[k] == ps[s][k];
      RuleMarkIsMax(ps[s][k], R[s][k], st);
      assert Backed(ps[s][k], R[s][k], st);
      forall i | 0 <= i < |R[s][k]| ensures IsMark(MarkOf(st, R[s][k][i])) {
        var x := R[s][k][i];
        assert x < |st| ==> IsMark(st[x]);
      }
    }
  }

  /** The marking phase of deempty. */
  method MarkAll(g: Grammar, e: Sym)
    requires |g.state| == |g.pstate| == |g.rules| && e < |g.rules| && g.rules[e] == []
    requires forall s :: 0 <= s < |g.rules| ==> |g.pstate[s]| == |g.rules[s]|
    modifies g`state, g`pstate, g`changed
    ensures Marked(g.rules, e, g.state, g.pstate)
  {
    InitialMarks(g, e);
    ghost var R := g.rules;
    SumRankRises(g.state, g.state);
    RisenSelf(g.pstate);
    SumRowsRises(R, g.pstate, g.pstate);
    g.changed := true;
    while g.changed
      invariant Marking(R, e, g.state, g.pstate)
      invariant !g.changed ==> Stable(R, g.state, g.pstate, |R|)
      invariant SumRank(g.state) + SumRows(g.pstate) <= 2 * |R| + Ceiling(R)
      decreases 2 * |R| + Ceiling(R) - SumRank(g.state) - SumRows(g.pstate), g.changed
    {
      ghost var st, ps := g.state, g.pstate;
      CheckRound(g, e);
      SumRankRises(st, g.state);
      SumRowsRises(R, ps, g.pstate);
    }
    StableMarks(R, e, g.state, g.pstate);
  }

  lemma RisenSelf(ps: seq<seq<State>>)
    ensures RowsRisen(ps, ps)
  {
  }

  /** The first n symbols have their initial marks, before that of the empty symbol is put right. */
  ghost predicate Initial(R: Rules, st: seq<State>, ps: seq<seq<State>>, n: nat) {
    && |st| == |ps| == |R|
    && (forall t :: 0 <= t < |R| ==> |ps[t]| == |R[t]|)
    && (forall t :: 0 <= t < n && t < |R| ==>
      st[t] == (if R[t] == [] then NON_EMPTY else IsEmpty) && InitialRow(ps[t], |R[t]|))
  }

  ghost predicate InitialRow(row: seq<State>, p: nat) {
    forall k :: 0 <= k < p && k < |row| ==> row[k] == IsEmpty
  }

  method InitialRules(g: Grammar, s: Sym)
    requires |g.pstate| == |g.rules| && s < |g.rules| && |g.pstate[s]| == |g.rules[s]|
    modifies g`pstate
    ensures |g.pstate| == |g.rules| && g.pstate == old(g.pstate)[s := g.pstate[s]]
    ensures |g.pstate[s]| == |g.rules[s]| && InitialRow(g.pstate[s], |g.rules[s]|)
  {
    var p := 0;
    while p < |g.rules[s]|
      invariant 0 <= p <= |g.rules[s]| && |g.pstate| == |g.rules| && g.pstate == old(g.pstate)[s := g.pstate[s]]
      invariant |g.pstate[s]| == |g.rules[s]| && InitialRow(g.pstate[s], p)
    {
      g.pstate := g.pstate[s := g.pstate[s][p := IsEmpty]];
      p := p + 1;
    }
  }

  lemma InitialMarking(R: Rules, e: Sym, st: seq<State>, ps: seq<seq<State>>)
    requires Initial(R, st, ps, |R|) && e < |R| && R[e] == []
    ensures Marking(R, e, st[e := IsEmpty], ps)
  {
    var st' := st[e := IsEmpty];
    forall s | 0 <= s < |R| ensures AllMarks(ps[s]) && (R[s] != [] ==> SymbolMark(ps[s]) == IsEmpty) {
      assert InitialRow(ps[s], |R[s]|);
    }
  }

  /** The initial markings: terminals cannot be empty, save the empty symbol; nonterminals and their
      rules are empty until shown otherwise. */
  method InitialMarks(g: Grammar, e: Sym)
    requires |g.state| == |g.pstate| == |g.rules| && e < |g.rules| && g.rules[e] == []
    requires forall s :: 0 <= s < |g.rules| ==> |g.pstate[s]| == |g.rules[s]|
    modifies g`state, g`pstate
    ensures Marking(g.rules, e, g.state, g.pstate)
  {
    var s := 0;
    while s < |g.rules|
      invariant 0 <= s <= |g.rules| && Initial(g.rules, g.state, g.pstate, s)
    {
      if g.rules[s] == [] {
        g.state := g.state[s := NON_EMPTY];
      } else {
        g.state := g.state[s := IsEmpty];
        InitialRules(g, s);
      }
      s := s + 1;
    }
    InitialMarking(g.rules, e, g.state, g.pstate);
    g.state := g.state[e := IsEmpty];
  }
}
