/** reachable.c: marks the symbols that can be reached from the distinguished symbol. */
module Reachability {
  import opened Wrappers
  import opened Grammars

  /** t occurs in the body of a rule of s. */
  predicate Refers(R: Rules, s: Sym, t: Sym) {
    exists k :: 0 <= k < |RulesOf(R, s)| && t in RulesOf(R, s)[k]
  }

  /** A chain of symbols, each occurring in a rule of the one before it. */
  ghost predicate Path(R: Rules, p: seq<Sym>) {
    |p| > 0 && forall i :: 0 <= i < |p| - 1 ==> Refers(R, p[i], p[i + 1])
  }

  ghost predicate Reaches(R: Rules, a: Sym, b: Sym) {
    exists p :: Path(R, p) && p[0] == a && p[|p| - 1] == b
  }

  lemma ReachesSelf(R: Rules, a: Sym)
    ensures Reaches(R, a, a)
  {
    assert Path(R, [a]);
  }

  lemma ReachesVia(R: Rules, a: Sym, b: Sym, c: Sym)
    requires Refers(R, a, b) && Reaches(R, b, c)
    ensures Reaches(R, a, c)
  {
    var p :| Path(R, p) && p[0] == b && p[|p| - 1] == c;
    var q := [a] + p;
    forall i | 0 <= i < |q| - 1 ensures Refers(R, q[i], q[i + 1]) {
      if i > 0 { assert q[i] == p[i - 1] && q[i + 1] == p[i]; }
    }
    assert Path(R, q);
  }

  lemma ReachesThen(R: Rules, a: Sym, b: Sym, c: Sym)
    requires Reaches(R, a, b) && Refers(R, b, c)
    ensures Reaches(R, a, c)
  {
    var p :| Path(R, p) && p[0] == a && p[|p| - 1] == b;
    assert Path(R, p + [c]);
  }

  /** A marking closed under the rules contains everything reachable from its members. */
  lemma {:induction false} ClosedMarks(R: Rules, marks: set<Sym>, p: seq<Sym>)
    requires forall a, b :: a in marks && Refers(R, a, b) ==> b in marks
    requires Path(R, p) && p[0] in marks
    ensures p[|p| - 1] in marks
    decreases |p|
  {
    if |p| > 1 {
      assert Refers(R, p[0], p[1]);
      forall i | 0 <= i < |p[1..]| - 1 ensures Refers(R, p[1..][i], p[1..][i + 1]) {
        assert Refers(R, p[i + 1], p[i + 2]);
      }
      ClosedMarks(R, marks, p[1..]);
    }
  }

  lemma RegroupAt(u: seq<Sym>, body: Rule, j: nat, v: seq<Sym>)
    requires j < |body|
    ensures u + body + v == (u + body[..j]) + [body[j]] + (body[j + 1..] + v)
  {
    assert body == body[..j] + [body[j]] + body[j + 1..];
  }

  /** A symbol at the end of a path occurs in a sentential form derived from its start. */
  lemma {:induction false} ReachesDerives(R: Rules, p: seq<Sym>) returns (u: seq<Sym>, v: seq<Sym>)
    requires Path(R, p)
    ensures Derives(R, [p[0]], u + [p[|p| - 1]] + v)
    decreases |p|
  {
    if |p| == 1 {
      u, v := [], [];
      DerivesRefl(R, [p[0]]);
      assert [] + [p[0]] + [] == [p[0]];
    } else {
      var q := p[..|p| - 1];
      forall i | 0 <= i < |q| - 1 ensures Refers(R, q[i], q[i + 1]) {
        assert Refers(R, p[i], p[i + 1]);
      }
      u, v := ReachesDerives(R, q);
      var s, t := p[|p| - 2], p[|p| - 1];
      assert Refers(R, s, t);
      var k :| 0 <= k < |RulesOf(R, s)| && t in RulesOf(R, s)[k];
      var body := RulesOf(R, s)[k];
      var j :| 0 <= j < |body| && body[j] == t;
      DerivesRefl(R, body);
      DerivesByRule(R, s, body, body);
      DerivesReplace(R, [p[0]], u, s, v, body);
      RegroupAt(u, body, j, v);
      u, v := u + body[..j], body[j + 1..] + v;
    }
  }

  /** All symbols in the rules of t are marked. */
  ghost predicate Followed(R: Rules, state: seq<State>, t: Sym) {
    forall u: Sym :: Refers(R, t, u) ==> u < |state| && state[u] != Untouched
  }

  ghost function Fresh(state: seq<State>): set<nat> {
    set i | 0 <= i < |state| && state[i] == Untouched
  }

  method ReachSetup(g: Grammar)
    requires |g.state| == |g.rules|
    modifies g`state
    ensures |g.state| == |g.rules|
    ensures forall s :: 0 <= s < |g.state| ==> g.state[s] == Untouched
  {
    var s := 0;
    while s < |g.rules|
      invariant 0 <= s <= |g.rules| == |g.state|
      invariant forall t :: 0 <= t < s ==> g.state[t] == Untouched
    {
      g.state := g.state[s := Untouched];
      s := s + 1;
    }
  }

  /** The first e elements of a rule are marked. */
  ghost predicate RuleTouched(state: seq<State>, body: Rule, e: nat) {
    forall i :: 0 <= i < e && i < |body| ==> body[i] < |state| && state[body[i]] != Untouched
  }

  ghost predicate RowTouched(state: seq<State>, row: seq<Rule>, p: nat) {
    forall k :: 0 <= k < p && k < |row| ==> RuleTouched(state, row[k], |row[k]|)
  }

  /** The effect of touching s: marks go to reachable symbols, and every new mark is closed under the rules. */
  ghost predicate TouchedFrom(R: Rules, before: seq<State>, now: seq<State>, s: Sym) {
    && |now| == |before| == |R| && s < |R| && now[s] == Touched
    && (forall t :: 0 <= t < |now| ==> now[t] == before[t] || (now[t] == Touched && Reaches(R, s, t)))
    && (forall t: Sym :: t < |now| && (t == s || now[t] != before[t]) ==> Followed(R, now, t))
  }

  /** What holds between two recursive calls: the same, except that s itself need not be done. */
  ghost predicate TouchInv(R: Rules, before: seq<State>, now: seq<State>, s: Sym) {
    && |now| == |before| == |R| && s < |R| && now[s] == Touched
    && (forall t :: 0 <= t < |now| ==> now[t] == before[t] || (now[t] == Touched && Reaches(R, s, t)))
    && (forall t: Sym :: t < |now| && t != s && now[t] != before[t] ==> Followed(R, now, t))
  }

  lemma FollowedStays(R: Rules, prev: seq<State>, now: seq<State>, t: Sym)
    requires Followed(R, prev, t) && |now| == |prev|
    requires forall u :: 0 <= u < |now| ==> now[u] == prev[u] || now[u] == Touched
    ensures Followed(R, now, t)
  {
  }

  /** A recursive call for an unmarked element ss of a rule of s. */
  lemma TouchStep(R: Rules, before: seq<State>, prev: seq<State>, now: seq<State>, s: Sym, ss: Sym)
    requires TouchInv(R, before, prev, s) && TouchedFrom(R, prev, now, ss) && Refers(R, s, ss)
    ensures TouchInv(R, before, now, s)
  {
    forall t | 0 <= t < |now| ensures now[t] == before[t] || (now[t] == Touched && Reaches(R, s, t)) {
      if now[t] != prev[t] { ReachesVia(R, s, ss, t); }
    }
    forall t: Sym | t < |now| && t != s && now[t] != before[t] ensures Followed(R, now, t) {
      if now[t] == prev[t] { FollowedStays(R, prev, now, t); }
    }
  }

  lemma TouchedStays(prev: seq<State>, now: seq<State>, row: seq<Rule>, p: nat, body: Rule, e: nat)
    requires RowTouched(prev, row, p) && RuleTouched(prev, body, e) && |now| == |prev|
    requires forall u :: 0 <= u < |now| ==> now[u] == prev[u] || now[u] == Touched
    ensures RowTouched(now, row, p) && RuleTouched(now, body, e)
  {
    forall k | 0 <= k < p && k < |row| ensures RuleTouched(now, row[k], |row[k]|) {
      assert RuleTouched(prev, row[k], |row[k]|);
    }
  }

  lemma TouchDone(R: Rules, before: seq<State>, now: seq<State>, s: Sym)
    requires TouchInv(R, before, now, s) && RowTouched(now, R[s], |R[s]|)
    ensures TouchedFrom(R, before, now, s)
  {
    forall u: Sym | Refers(R, s, u) ensures u < |now| && now[u] != Untouched {
      var k :| 0 <= k < |R[s]| && u in R[s][k];
      assert RuleTouched(now, R[s][k], |R[s][k]|);
    }
  }

  lemma FreshFalls(before: seq<State>, now: seq<State>, s: Sym)
    requires |now| == |before| && s < |now| && now[s] == Touched
    requires forall u :: 0 <= u < |now| ==> now[u] == before[u] || now[u] == Touched
    ensures Fresh(now) <= Fresh(before) && s !in Fresh(now)
  {
  }

  /** Marks s and, through unmarked symbols, all it reaches.  The marks made by one call are closed
      under the rules except for what was marked before, which is what makes the recursion correct
      on cyclic grammars. */
  method ReachTouch(g: Grammar, s: Sym)
    requires |g.state| == |g.rules| && Closed(g.rules) && s < |g.rules|
    modifies g`state
    ensures TouchedFrom(g.rules, old(g.state), g.state, s)
    decreases Fresh(g.state), if g.state[s] == Untouched then 0 else 1
  {
    ghost var before := g.state;
    g.state := g.state[s := Touched];
    ReachesSelf(g.rules, s);
    var p := 0;
    while p < |g.rules[s]|
      invariant 0 <= p <= |g.rules[s]| && TouchInv(g.rules, before, g.state, s)
      invariant RowTouched(g.state, g.rules[s], p)
    {
      var e := 0;
      while e < |g.rules[s][p]|
        invariant 0 <= e <= |g.rules[s][p]| && TouchInv(g.rules, before, g.state, s)
        invariant RowTouched(g.state, g.rules[s], p) && RuleTouched(g.state, g.rules[s][p], e)
      {
        var ss := g.rules[s][p][e];
        if g.state[ss] == Untouched {
          ghost var prev := g.state;
          FreshFalls(before, prev, s);
          assert g.rules[s] == RulesOf(g.rules, s) && ss in RulesOf(g.rules, s)[p];
          ReachTouch(g, ss);
          TouchStep(g.rules, before, prev, g.state, s, ss);
          TouchedStays(prev, g.state, g.rules[s], p, g.rules[s][p], e);
        }
        e := e + 1;
      }
      p := p + 1;
    }
    TouchDone(g.rules, before, g.state, s);
  }

  /** The marking that startfollow.c and gramstats.c start from. */
  method MarkReachable(g: Grammar)
    requires |g.state| == |g.rules| && Closed(g.rules)
    requires g.head.Some? ==> g.head.value < |g.rules|
    modifies g`state
    ensures |g.state| == |g.rules|
    ensures forall s :: 0 <= s < |g.rules| ==> g.state[s] in {Touched, Untouched}
    ensures forall s :: 0 <= s < |g.rules| ==>
      (g.state[s] == Touched <==> g.head.Some? && Reaches(g.rules, g.head.value, s))
  {
    ReachSetup(g);
    if g.head.Some? {
      var h := g.head.value;
      ReachTouch(g, h);
      ghost var marks := set i | 0 <= i < |g.state| && g.state[i] == Touched;
      forall s | 0 <= s < |g.rules| && Reaches(g.rules, h, s) ensures s in marks {
        var p :| Path(g.rules, p) && p[0] == h && p[|p| - 1] == s;
        ClosedMarks(g.rules, marks, p);
      }
    }
  }
}
