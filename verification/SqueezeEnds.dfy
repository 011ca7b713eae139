/** squeeze.c: when its two loops, the passes of squeezesymbols and the whole of squeeze, come to an end. */
module SqueezeEnds {
  import opened Grammars
  import opened SqueezeSteps

  // ----- passes of squeezesymbols: weights against cycles -----

  /** Each symbol of C has a single rule, and that rule mentions a symbol of C again. */
  ghost predicate CycleOfSingles(R: Rules, C: set<Sym>) {
    C != {} && forall c {:trigger Returns(R, C, c)} :: c in C ==> Returns(R, C, c)
  }

  ghost predicate HasCycle(R: Rules) {
    exists C :: CycleOfSingles(R, C)
  }

  predicate Returns(R: Rules, C: set<Sym>, c: Sym) {
    Inlinable(R, c) && Mentions(R[c][0], C)
  }

  function Weight(W: seq<nat>, x: Sym): nat {
    if x < |W| then W[x] else 0
  }

  function WeightOf(W: seq<nat>, alpha: seq<Sym>): nat {
    if alpha == [] then 0 else Weight(W, alpha[0]) + WeightOf(W, alpha[1..])
  }

  function RowWeight(W: seq<nat>, row: seq<Rule>): nat {
    if row == [] then 0 else WeightOf(W, row[0]) + RowWeight(W, row[1..])
  }

  /** The weight of all the rules. */
  function Total(W: seq<nat>, R: Rules): nat {
    if R == [] then 0 else RowWeight(W, R[0]) + Total(W, R[1..])
  }

  /** A symbol that can be inlined weighs more than its rule. */
  ghost predicate Weighs(R: Rules, W: seq<nat>) {
    forall s: Sym :: Inlinable(R, s) ==> WeightOf(W, R[s][0]) < Weight(W, s)
  }

  ghost predicate Weighable(R: Rules) {
    exists W :: Weighs(R, W)
  }

  lemma {:induction false} WeightConcat(W: seq<nat>, a: seq<Sym>, b: seq<Sym>)
    ensures WeightOf(W, a + b) == WeightOf(W, a) + WeightOf(W, b)
  {
    if a == [] {
      assert a + b == b;
    } else {
      assert (a + b)[1..] == a[1..] + b;
      WeightConcat(W, a[1..], b);
    }
  }

  /** Cutting at element i. */
  lemma WeightSplit(W: seq<nat>, alpha: seq<Sym>, i: nat)
    requires i < |alpha|
    ensures WeightOf(W, alpha) == WeightOf(W, alpha[..i]) + Weight(W, alpha[i]) + WeightOf(W, alpha[i + 1..])
  {
    assert alpha == alpha[..i] + alpha[i..] && alpha[i..][1..] == alpha[i + 1..];
    WeightConcat(W, alpha[..i], alpha[i..]);
  }

  lemma {:induction false} RowWeightUpdate(W: seq<nat>, row: seq<Rule>, k: nat, r: Rule)
    requires k < |row| && WeightOf(W, r) < WeightOf(W, row[k])
    ensures RowWeight(W, row[k := r]) < RowWeight(W, row)
  {
    if k > 0 {
      assert row[k := r][1..] == row[1..][k - 1 := r];
      RowWeightUpdate(W, row[1..], k - 1, r);
    } else {
      assert row[0 := r][1..] == row[1..];
    }
  }

  lemma {:induction false} TotalUpdate(W: seq<nat>, R: Rules, s: nat, row: seq<Rule>)
    requires s < |R| && RowWeight(W, row) < RowWeight(W, R[s])
    ensures Total(W, R[s := row]) < Total(W, R)
  {
    if s > 0 {
      assert R[s := row][1..] == R[1..][s - 1 := row];
      TotalUpdate(W, R[1..], s - 1, row);
    } else {
      assert R[0 := row][1..] == R[1..];
    }
  }

  /** A substitution makes the rules lighter, and the weights remain fit. */
  lemma InlineLightens(R: Rules, W: seq<nat>, s: Sym, k: nat, i: nat)
    requires Weighs(R, W) && s < |R| && k < |R[s]| && i < |R[s][k]| && Inlinable(R, R[s][k][i])
    ensures Weighs(Inlined(R, s, k, i), W) && Total(W, Inlined(R, s, k, i)) < Total(W, R)
  {
    var R', r := Inlined(R, s, k, i), R[s][k];
    var b := R[r[i]][0];
    var r' := r[..i] + b + r[i + 1..];
    WeightSplit(W, r, i);
    WeightConcat(W, r[..i] + b, r[i + 1..]);
    WeightConcat(W, r[..i], b);
    RowWeightUpdate(W, R[s], k, r');
    TotalUpdate(W, R, s, R[s][k := r']);
    forall t: Sym | Inlinable(R', t) ensures WeightOf(W, R'[t][0]) < Weight(W, t) {
      if t == s {
        assert k == 0 && Inlinable(R, s);
      } else {
        assert R'[t] == R[t] && Inlinable(R, t);
      }
    }
  }

  lemma {:induction false} CycleUnweighed(R: Rules, C: set<Sym>, c: Sym, W: seq<nat>)
    requires CycleOfSingles(R, C) && c in C && Weighs(R, W)
    ensures false
    decreases Weight(W, c)
  {
    assert Returns(R, C, c);
    var i :| 0 <= i < |R[c][0]| && R[c][0][i] in C;
    WeightSplit(W, R[c][0], i);
    CycleUnweighed(R, C, R[c][0][i], W);
  }

  lemma {:induction false} WeightElsewhere(W: seq<nat>, c: Sym, n: nat, alpha: seq<Sym>)
    requires c < |W| && !Mentions(alpha, {c})
    ensures WeightOf(W[c := n], alpha) == WeightOf(W, alpha)
  {
    if alpha != [] {
      assert alpha[0] in {c} ==> Mentions(alpha, {c});
      assert alpha == [alpha[0]] + alpha[1..];
      MentionsConcat([alpha[0]], alpha[1..], {c});
      WeightElsewhere(W, c, n, alpha[1..]);
    }
  }

  /** The symbols outside of C are weighed, and their rules do not mention C. */
  ghost predicate WeighedBut(R: Rules, W: seq<nat>, C: set<Sym>) {
    |W| == |R| && forall s: Sym :: Inlinable(R, s) && s !in C ==>
      WeightOf(W, R[s][0]) < Weight(W, s) && !Mentions(R[s][0], C)
  }

  /** Weighs the symbols of C, one whose rule does not mention C first. */
  lemma {:induction false} WeighRest(R: Rules, W: seq<nat>, C: set<Sym>)
    requires WeighedBut(R, W, C) && forall c :: c in C ==> Inlinable(R, c)
    requires !HasCycle(R)
    ensures Weighable(R)
    decreases |C|
  {
    if C == {} {
      assert Weighs(R, W);
    } else {
      assert !CycleOfSingles(R, C);
      var c :| c in C && !Returns(R, C, c);
      var W' := W[c := WeightOf(W, R[c][0]) + 1];
      forall s: Sym | Inlinable(R, s) && s !in C - {c}
        ensures WeightOf(W', R[s][0]) < Weight(W', s) && !Mentions(R[s][0], C - {c})
      {
        assert !Mentions(R[s][0], C);
        assert !Mentions(R[s][0], {c});
        WeightElsewhere(W, c, WeightOf(W, R[c][0]) + 1, R[s][0]);
      }
      WeighRest(R, W', C - {c});
    }
  }

  /** There are weights exactly if there is no cycle. */
  lemma WeighableExactly(R: Rules)
    ensures Weighable(R) <==> !HasCycle(R)
  {
    if W :| Weighs(R, W) {
      forall C ensures !CycleOfSingles(R, C) {
        if CycleOfSingles(R, C) {
          var c :| c in C;
          CycleUnweighed(R, C, c, W);
        }
      }
    }
    if !HasCycle(R) {
      var singles := set s | 0 <= s < |R| && Inlinable(R, s);
      WeighRest(R, seq(|R|, _ => 0), singles);
    }
  }

  // ----- what becomes of cycles -----

  /** A substitution keeps a cycle.  Of the uses of a symbol in its own single rule only the one in front is such
      a substitution: at any other the copying never ends. */
  lemma CycleInlined(R: Rules, C: set<Sym>, s: Sym, k: nat, i: nat)
    requires CycleOfSingles(R, C) && s < |R| && k < |R[s]| && i < |R[s][k]| && Inlinable(R, R[s][k][i])
    ensures CycleOfSingles(Inlined(R, s, k, i), C)
  {
    var R', r := Inlined(R, s, k, i), R[s][k];
    var x, b := r[i], R[r[i]][0];
    forall c | c in C ensures Returns(R', C, c) {
      assert Returns(R, C, c);
      if c == s {
        InlinedMentions(r, i, b, C);
        assert x in C ==> Returns(R, C, x);
      } else {
        assert R'[c] == R[c];
      }
    }
  }

  /** What a rule mentions after a substitution. */
  lemma InlinedMentions(r: Rule, i: nat, b: Rule, C: set<Sym>)
    requires i < |r|
    ensures Mentions(r[..i] + b + r[i + 1..], C) <==> Mentions(r[..i], C) || Mentions(b, C) || Mentions(r[i + 1..], C)
    ensures Mentions(r, C) <==> Mentions(r[..i], C) || r[i] in C || Mentions(r[i + 1..], C)
  {
    MentionsConcat(r[..i] + b, r[i + 1..], C);
    MentionsConcat(r[..i], b, C);
    assert r == r[..i] + [r[i]] + r[i + 1..];
    MentionsConcat(r[..i] + [r[i]], r[i + 1..], C);
    MentionsConcat(r[..i], [r[i]], C);
    assert Mentions([r[i]], C) <==> r[i] in C by { assert [r[i]][0] == r[i]; }
  }

  /** Removing repeated rules keeps a cycle, and on a cycle something can be inlined. */
  lemma CycleKept(R: Rules, R': Rules, C: set<Sym>)
    requires CycleOfSingles(R, C) && Deduplicated(R, R')
    ensures CycleOfSingles(R', C)
    ensures exists s: Sym, k: nat, i: nat :: s < |R| && k < |R[s]| && i < |R[s][k]| && Inlinable(R, R[s][k][i])
  {
    forall c | c in C ensures Returns(R', C, c) {
      assert Returns(R, C, c) && SameMembers(R[c], R'[c]);
      assert R[c][0] in R'[c] && |R'[c]| == 1;
      assert R'[c][0] == R[c][0];
    }
    var c :| c in C;
    assert Returns(R, C, c);
    var i: nat :| i < |R[c][0]| && R[c][0][i] in C;
    assert Returns(R, C, R[c][0][i]);
  }

  // ----- squeeze: the forms that will become equal -----

  /** Why two forms are alike: the least congruence that makes a symbol and its rules alike if these are not null
      and already alike among themselves. */
  datatype Link =
    | Same
    | Back(l: Link)
    | Join(l: Link, mid: seq<Sym>, m: Link)
    | Inside(u: seq<Sym>, l: Link, v: seq<Sym>, a: seq<Sym>, b: seq<Sym>)
    | Open(s: Sym, ls: seq<Link>)

  ghost predicate Linked(R: Rules, link: Link, alpha: seq<Sym>, beta: seq<Sym>)
    decreases link
  {
    match link
    case Same => alpha == beta
    case Back(l) => Linked(R, l, beta, alpha)
    case Join(l, mid, m) => Linked(R, l, alpha, mid) && Linked(R, m, mid, beta)
    case Inside(u, l, v, a, b) => alpha == u + a + v && beta == u + b + v && Linked(R, l, a, b)
    case Open(s, ls) => alpha == [s] && beta in RulesOf(R, s) && Equated(R, s, ls)
  }

  /** The rules of s are not null, and each is linked to the first. */
  ghost predicate Equated(R: Rules, s: Sym, ls: seq<Link>)
    decreases ls
  {
    && s < |R| && |R[s]| == |ls| > 0
    && forall k :: 0 <= k < |ls| ==> R[s][k] != [] && Linked(R, ls[k], R[s][0], R[s][k])
  }

  /** The same, as what Alike asks for. */
  ghost predicate Linking(R: Rules, link: Link, alpha: seq<Sym>, beta: seq<Sym>) {
    Linked(R, link, alpha, beta)
  }

  ghost predicate Alike(R: Rules, alpha: seq<Sym>, beta: seq<Sym>) {
    exists link :: Linking(R, link, alpha, beta)
  }

  /** The rules of a symbol whose rules will all become the same. */
  ghost predicate AllAlike(R: Rules, row: seq<Rule>) {
    row != [] && [] !in row && forall r, t :: r in row && t in row ==> Alike(R, r, t)
  }

  /** Each symbol of C has rules that will become the same, and one of them mentions a symbol of C again. */
  ghost predicate Doom(R: Rules, C: set<Sym>) {
    C != {} && forall c {:trigger Dooms(R, C, c)} :: c in C ==> Dooms(R, C, c)
  }

  ghost predicate Dooms(R: Rules, C: set<Sym>, c: Sym) {
    AllAlike(R, RulesOf(R, c)) && MentionedBy(RulesOf(R, c), C)
  }

  ghost predicate MentionedBy(row: seq<Rule>, C: set<Sym>) {
    exists r :: r in row && Mentions(r, C)
  }

  ghost predicate Doomed(R: Rules) {
    exists C :: Doom(R, C)
  }

  lemma OnlyRuleDooms(R: Rules, C: set<Sym>, c: Sym)
    requires Inlinable(R, c) && Mentions(R[c][0], C)
    ensures Dooms(R, C, c)
  {
    AlikeRefl(R, R[c][0]);
    assert R[c][0] in RulesOf(R, c);
  }

  lemma CycleDoomed(R: Rules, C: set<Sym>)
    requires CycleOfSingles(R, C)
    ensures Doomed(R)
  {
    forall c | c in C ensures Dooms(R, C, c) {
      assert Returns(R, C, c);
      OnlyRuleDooms(R, C, c);
    }
    assert Doom(R, C);
  }

  lemma AlikeRefl(R: Rules, a: seq<Sym>)
    ensures Alike(R, a, a)
  {
    assert Linking(R, Same, a, a);
  }

  lemma AlikeSym(R: Rules, a: seq<Sym>, b: seq<Sym>)
    requires Alike(R, a, b)
    ensures Alike(R, b, a)
  {
    var l :| Linking(R, l, a, b);
    assert Linking(R, Back(l), b, a);
  }

  lemma AlikeTrans(R: Rules, a: seq<Sym>, b: seq<Sym>, c: seq<Sym>)
    requires Alike(R, a, b) && Alike(R, b, c)
    ensures Alike(R, a, c)
  {
    var l :| Linking(R, l, a, b);
    var m :| Linking(R, m, b, c);
    assert Linking(R, Join(l, b, m), a, c);
  }

  lemma AlikeInside(R: Rules, u: seq<Sym>, a: seq<Sym>, b: seq<Sym>, v: seq<Sym>)
    requires Alike(R, a, b)
    ensures Alike(R, u + a + v, u + b + v)
  {
    var l :| Linking(R, l, a, b);
    assert Linking(R, Inside(u, l, v, a, b), u + a + v, u + b + v);
  }

  /** The links that make the first n rules alike to the first. */
  lemma {:induction false} LinksOf(R: Rules, row: seq<Rule>, n: nat) returns (ls: seq<Link>)
    requires AllAlike(R, row) && n <= |row|
    ensures |ls| == n && forall k :: 0 <= k < n ==> Linked(R, ls[k], row[0], row[k])
  {
    if n == 0 {
      ls := [];
    } else {
      ls := LinksOf(R, row, n - 1);
      assert Alike(R, row[0], row[n - 1]);
      var l :| Linking(R, l, row[0], row[n - 1]);
      ls := ls + [l];
    }
  }

  lemma AlikeOpen(R: Rules, s: Sym, r: Rule)
    requires AllAlike(R, RulesOf(R, s)) && r in RulesOf(R, s)
    ensures Alike(R, [s], r)
  {
    var ls := LinksOf(R, R[s], |R[s]|);
    assert Equated(R, s, ls);
    assert Linking(R, Open(s, ls), [s], r);
  }

  // ----- when two grammars make the same forms alike -----

  /** In R', a symbol is alike to its rules of R if these are alike there. */
  ghost predicate Carries(R: Rules, R': Rules) {
    forall s: Sym, r :: r in RulesOf(R, s) && AllAlike(R', RulesOf(R, s)) ==> Alike(R', [s], r)
  }

  lemma {:induction false} CarryLink(R: Rules, R': Rules, link: Link, a: seq<Sym>, b: seq<Sym>)
    requires Carries(R, R') && Linked(R, link, a, b)
    ensures Alike(R', a, b)
    decreases link
  {
    match link
    case Same => AlikeRefl(R', a);
    case Back(l) =>
      CarryLink(R, R', l, b, a);
      AlikeSym(R', b, a);
    case Join(l, mid, m) =>
      CarryLink(R, R', l, a, mid);
      CarryLink(R, R', m, mid, b);
      AlikeTrans(R', a, mid, b);
    case Inside(u, l, v, x, y) =>
      CarryLink(R, R', l, x, y);
      AlikeInside(R', u, x, y, v);
    case Open(s, ls) =>
      CarryRow(R, R', s, ls);
  }

  lemma {:induction false} CarryRow(R: Rules, R': Rules, s: Sym, ls: seq<Link>)
    requires Carries(R, R') && Equated(R, s, ls)
    ensures AllAlike(R', RulesOf(R, s))
    decreases ls
  {
    var row := R[s];
    forall r, t | r in row && t in row ensures Alike(R', r, t) {
      var j :| 0 <= j < |row| && row[j] == r;
      var k :| 0 <= k < |row| && row[k] == t;
      CarryLink(R, R', ls[j], row[0], r);
      CarryLink(R, R', ls[k], row[0], t);
      AlikeSym(R', row[0], r);
      AlikeTrans(R', r, row[0], t);
    }
  }

  lemma CarryAlike(R: Rules, R': Rules, a: seq<Sym>, b: seq<Sym>)
    requires Carries(R, R') && Alike(R, a, b)
    ensures Alike(R', a, b)
  {
    var link :| Linking(R, link, a, b);
    CarryLink(R, R', link, a, b);
  }

  lemma CarryAllAlike(R: Rules, R': Rules, row: seq<Rule>)
    requires Carries(R, R') && AllAlike(R, row)
    ensures AllAlike(R', row)
  {
    forall r, t | r in row && t in row ensures Alike(R', r, t) {
      CarryAlike(R, R', r, t);
    }
  }

  /** Every rule of each of two rows has one in the other that is alike, and null exactly if it is. */
  ghost predicate Twins(R: Rules, row: seq<Rule>, row': seq<Rule>) {
    && (forall r :: r in row ==> HasTwin(R, row', r))
    && (forall r :: r in row' ==> HasTwin(R, row, r))
  }

  ghost predicate HasTwin(R: Rules, row: seq<Rule>, r: Rule) {
    exists t :: t in row && Alike(R, r, t) && (r == [] <==> t == [])
  }

  lemma TwinsAlike(R: Rules, row: seq<Rule>, row': seq<Rule>)
    requires Twins(R, row, row') && AllAlike(R, row)
    ensures AllAlike(R, row')
  {
    assert row' != [] by { assert HasTwin(R, row', row[0]); }
    forall r | r in row' ensures r != [] { assert HasTwin(R, row, r); }
    forall r', t' | r' in row' && t' in row' ensures Alike(R, r', t') {
      assert HasTwin(R, row, r') && HasTwin(R, row, t');
      var r :| r in row && Alike(R, r', r);
      var t :| t in row && Alike(R, t', t);
      AlikeTrans(R, r', r, t);
      AlikeSym(R, t', t);
      AlikeTrans(R, r', t, t');
    }
  }

  ghost predicate AllTwins(R: Rules, S: Rules, S': Rules) {
    forall s: Sym :: Twins(R, RulesOf(S, s), RulesOf(S', s))
  }

  /** Twin rules of R' carry what is alike in R over to R'. */
  lemma TwinsCarry(R: Rules, R': Rules)
    requires AllTwins(R', R, R')
    ensures Carries(R, R')
  {
    forall s: Sym, r | r in RulesOf(R, s) && AllAlike(R', RulesOf(R, s)) ensures Alike(R', [s], r) {
      assert Twins(R', RulesOf(R, s), RulesOf(R', s));
      TwinsAlike(R', RulesOf(R, s), RulesOf(R', s));
      assert HasTwin(R', RulesOf(R', s), r);
      var t :| t in RulesOf(R', s) && Alike(R', r, t);
      AlikeOpen(R', s, t);
      AlikeSym(R', r, t);
      AlikeTrans(R', [s], t, r);
    }
  }

  lemma TwinsSwap(R: Rules, S: Rules, S': Rules)
    requires AllTwins(R, S, S')
    ensures AllTwins(R, S', S)
  {
    forall s: Sym ensures Twins(R, RulesOf(S', s), RulesOf(S, s)) {
      assert Twins(R, RulesOf(S, s), RulesOf(S', s));
    }
  }

  /** With twin rules either way, the same symbols have rules that are all alike. */
  lemma TwinsAllAlike(R: Rules, R': Rules, s: Sym)
    requires AllTwins(R, R, R') && AllTwins(R', R, R') && AllAlike(R, RulesOf(R, s))
    ensures AllAlike(R', RulesOf(R', s))
  {
    TwinsCarry(R, R');
    CarryAllAlike(R, R', RulesOf(R, s));
    assert Twins(R', RulesOf(R, s), RulesOf(R', s));
    TwinsAlike(R', RulesOf(R, s), RulesOf(R', s));
  }
}
