/** squeeze.c: being doomed, which no step of squeeze changes, against being settled, where squeeze stops. */
module SqueezeDooms {
  import opened Grammars
  import opened SqueezeSteps
  import opened SqueezeEnds

  // ----- substitutions -----

  lemma SameTwins(R: Rules, row: seq<Rule>)
    ensures Twins(R, row, row)
  {
    forall r | r in row ensures HasTwin(R, row, r) {
      AlikeRefl(R, r);
    }
  }

  lemma UpdatedTwins(R: Rules, row: seq<Rule>, k: nat, r': Rule)
    requires k < |row| && Alike(R, row[k], r') && row[k] != [] && r' != []
    ensures Twins(R, row, row[k := r'])
  {
    var row' := row[k := r'];
    AlikeSym(R, row[k], r');
    forall r | r in row ensures HasTwin(R, row', r) {
      var j :| 0 <= j < |row| && row[j] == r;
      AlikeRefl(R, r);
      assert row'[j] in row' && Alike(R, r, row'[j]);
    }
    forall r | r in row' ensures HasTwin(R, row, r) {
      var j :| 0 <= j < |row| && row'[j] == r;
      AlikeRefl(R, r);
      assert row[j] in row && Alike(R, r, row[j]);
    }
  }

  /** S has the symbol at element i with its only rule, and so the rule is alike before and after. */
  lemma InlinedTwins(R: Rules, s: Sym, k: nat, i: nat, S: Rules)
    requires s < |R| && k < |R[s]| && i < |R[s][k]| && Inlinable(R, R[s][k][i])
    requires RulesOf(S, R[s][k][i]) == R[R[s][k][i]]
    ensures AllTwins(S, R, Inlined(R, s, k, i))
  {
    var R', r := Inlined(R, s, k, i), R[s][k];
    var x, b := r[i], R[r[i]][0];
    var r' := r[..i] + b + r[i + 1..];
    AlikeRefl(S, b);
    assert RulesOf(S, x) == [b];
    AlikeOpen(S, x, b);
    AlikeInside(S, r[..i], [x], b, r[i + 1..]);
    assert r == r[..i] + [x] + r[i + 1..];
    UpdatedTwins(S, R[s], k, r');
    forall t: Sym ensures Twins(S, RulesOf(R, t), RulesOf(R', t)) {
      if t != s { SameTwins(S, RulesOf(R, t)); }
    }
  }

  /** The same symbols have rules that are all alike. */
  lemma InlinedAllAlike(R: Rules, s: Sym, k: nat, i: nat, c: Sym)
    requires s < |R| && k < |R[s]| && i < |R[s][k]| && Inlinable(R, R[s][k][i]) && R[s][k][i] != s
    ensures AllAlike(R, RulesOf(R, c)) <==> AllAlike(Inlined(R, s, k, i), RulesOf(Inlined(R, s, k, i), c))
  {
    var R' := Inlined(R, s, k, i);
    InlinedTwins(R, s, k, i, R);
    InlinedTwins(R, s, k, i, R');
    if AllAlike(R, RulesOf(R, c)) {
      TwinsAllAlike(R, R', c);
    }
    if AllAlike(R', RulesOf(R', c)) {
      TwinsSwap(R, R, R');
      TwinsSwap(R', R, R');
      TwinsAllAlike(R', R, c);
    }
  }

  lemma InlinedDoom(R: Rules, s: Sym, k: nat, i: nat, C: set<Sym>)
    requires s < |R| && k < |R[s]| && i < |R[s][k]| && Inlinable(R, R[s][k][i]) && R[s][k][i] != s
    requires Doom(R, C)
    ensures Doom(Inlined(R, s, k, i), C)
  {
    var R', x := Inlined(R, s, k, i), R[s][k][i];
    forall c | c in C ensures Dooms(R', C, c) {
      assert Dooms(R, C, c);
      InlinedAllAlike(R, s, k, i, c);
      var r :| r in RulesOf(R, c) && Mentions(r, C);
      if c != s {
        assert r in RulesOf(R', c);
      } else {
        var j :| 0 <= j < |R[s]| && R[s][j] == r;
        if x in C { assert Dooms(R, C, x); }
        InlinedMentions(R[s][k], i, R[x][0], C);
        assert R'[s][j] in RulesOf(R', s) && Mentions(R'[s][j], C);
      }
    }
  }

  lemma MentionsMore(alpha: seq<Sym>, C: set<Sym>, D: set<Sym>)
    requires Mentions(alpha, C) && C <= D
    ensures Mentions(alpha, D)
  {
  }

  lemma UninlinedDooms(R: Rules, s: Sym, k: nat, i: nat, C: set<Sym>, D: set<Sym>, c: Sym)
    requires s < |R| && k < |R[s]| && i < |R[s][k]| && Inlinable(R, R[s][k][i]) && R[s][k][i] != s
    requires Doom(Inlined(R, s, k, i), C) && c in C
    requires C <= D && (Mentions(R[R[s][k][i]][0], C) ==> R[s][k][i] in D)
    ensures Dooms(R, D, c)
  {
    var R', x := Inlined(R, s, k, i), R[s][k][i];
    assert Dooms(R', C, c);
    InlinedAllAlike(R, s, k, i, c);
    var r :| r in RulesOf(R', c) && Mentions(r, C);
    var j :| 0 <= j < |R'[c]| && R'[c][j] == r;
    if c != s || j != k {
      assert R'[c][j] == R[c][j];
      MentionsMore(r, C, D);
    } else {
      var was := R[s][k];
      InlinedMentions(was, i, R[x][0], C);
      InlinedMentions(was, i, R[x][0], D);
      if Mentions(was[..i], C) { MentionsMore(was[..i], C, D); }
      if Mentions(was[i + 1..], C) { MentionsMore(was[i + 1..], C, D); }
      assert was in RulesOf(R, s) && Mentions(was, D);
    }
  }

  /** All members of C, and perhaps one symbol more. */
  lemma GatherDoom(R: Rules, C: set<Sym>, x: Sym, D: set<Sym>)
    requires C != {} && D <= C + {x} && C <= D
    requires forall c {:trigger Dooms(R, D, c)} :: c in C ==> Dooms(R, D, c)
    requires x in D ==> Dooms(R, D, x)
    ensures Doom(R, D)
  {
  }

  /** The symbols doomed afterwards were doomed before, together with the one that was inlined. */
  lemma UninlinedDoom(R: Rules, s: Sym, k: nat, i: nat, C: set<Sym>) returns (D: set<Sym>)
    requires s < |R| && k < |R[s]| && i < |R[s][k]| && Inlinable(R, R[s][k][i]) && R[s][k][i] != s
    requires Doom(Inlined(R, s, k, i), C)
    ensures Doom(R, D)
  {
    var x := R[s][k][i];
    D := if Mentions(R[x][0], C) then C + {x} else C;
    if x in D && x !in C {
      MentionsMore(R[x][0], C, D);
      OnlyRuleDooms(R, D, x);
    }
    forall c | c in C ensures Dooms(R, D, c) { UninlinedDooms(R, s, k, i, C, D, c); }
    GatherDoom(R, C, x, D);
  }

  /** A substitution neither dooms nor saves a grammar. */
  lemma InlinedDoomed(R: Rules, s: Sym, k: nat, i: nat)
    requires s < |R| && k < |R[s]| && i < |R[s][k]| && Inlinable(R, R[s][k][i])
    ensures Doomed(R) <==> Doomed(Inlined(R, s, k, i))
  {
    var R' := Inlined(R, s, k, i);
    if R[s][k][i] == s {
      assert Returns(R, {s}, s) by { assert R[s][0][i] in {s}; }
      CycleInlined(R, {s}, s, k, i);
      CycleDoomed(R, {s});
      CycleDoomed(R', {s});
    } else {
      if C :| Doom(R, C) { InlinedDoom(R, s, k, i, C); }
      if C :| Doom(R', C) { var D := UninlinedDoom(R, s, k, i, C); }
    }
  }

  // ----- removals -----

  lemma MembersTwins(R: Rules, row: seq<Rule>, row': seq<Rule>)
    requires SameMembers(row, row')
    ensures Twins(R, row, row')
  {
    forall r | r in row ensures HasTwin(R, row', r) { AlikeRefl(R, r); }
    forall r | r in row' ensures HasTwin(R, row, r) { AlikeRefl(R, r); }
  }

  ghost predicate SameSets(R: Rules, R': Rules) {
    |R| == |R'| && forall s :: 0 <= s < |R| ==> SameMembers(R[s], R'[s])
  }

  lemma SameSetsAllAlike(R: Rules, R': Rules, c: Sym)
    requires SameSets(R, R') && AllAlike(R, RulesOf(R, c))
    ensures AllAlike(R', RulesOf(R', c))
  {
    forall s: Sym ensures Twins(R, RulesOf(R, s), RulesOf(R', s)) { MembersTwins(R, RulesOf(R, s), RulesOf(R', s)); }
    forall s: Sym ensures Twins(R', RulesOf(R, s), RulesOf(R', s)) { MembersTwins(R', RulesOf(R, s), RulesOf(R', s)); }
    TwinsAllAlike(R, R', c);
  }

  lemma SameSetsDoom(R: Rules, R': Rules, C: set<Sym>)
    requires SameSets(R, R') && Doom(R, C)
    ensures Doom(R', C)
  {
    forall c | c in C ensures Dooms(R', C, c) {
      assert Dooms(R, C, c);
      SameSetsAllAlike(R, R', c);
      var r :| r in RulesOf(R, c) && Mentions(r, C);
      assert SameMembers(R[c], R'[c]);
      assert r in RulesOf(R', c);
    }
  }

  /** Nor does removing repeated rules. */
  lemma DeduplicatedDoomed(R: Rules, R': Rules)
    requires Deduplicated(R, R')
    ensures Doomed(R) <==> Doomed(R')
  {
    if C :| Doom(R, C) { SameSetsDoom(R, R', C); }
    if C :| Doom(R', C) { SameSetsDoom(R', R, C); }
  }

  // ----- settled grammars -----

  ghost predicate NothingInlinable(R: Rules) {
    forall s, r: Rule :: 0 <= s < |R| && r in R[s] ==> Fixed(R, r)
  }

  /** No element of r can be inlined. */
  predicate Fixed(R: Rules, r: seq<Sym>) {
    forall i :: 0 <= i < |r| ==> !Inlinable(R, r[i])
  }

  /** There is nothing left to do for squeeze. */
  ghost predicate Settled(R: Rules) {
    NothingInlinable(R) && forall s :: 0 <= s < |R| ==> NoRepeats(R[s])
  }

  /** Every symbol with a single rule replaced by it. */
  function Expand(R: Rules, alpha: seq<Sym>): seq<Sym> {
    if alpha == [] then []
    else (if Inlinable(R, alpha[0]) then R[alpha[0]][0] else [alpha[0]]) + Expand(R, alpha[1..])
  }

  lemma {:induction false} ExpandConcat(R: Rules, a: seq<Sym>, b: seq<Sym>)
    ensures Expand(R, a + b) == Expand(R, a) + Expand(R, b)
  {
    if a == [] {
      assert a + b == b;
    } else {
      assert (a + b)[1..] == a[1..] + b;
      ExpandConcat(R, a[1..], b);
    }
  }

  lemma {:induction false} ExpandFixed(R: Rules, r: seq<Sym>)
    requires Fixed(R, r)
    ensures Expand(R, r) == r
  {
    if r != [] {
      assert !Inlinable(R, r[0]);
      ExpandFixed(R, r[1..]);
    }
  }

  /** In a settled grammar the forms that are alike have the same expansion. */
  lemma {:induction false} SettledLink(R: Rules, link: Link, a: seq<Sym>, b: seq<Sym>)
    requires Settled(R) && Linked(R, link, a, b)
    ensures Expand(R, a) == Expand(R, b)
    decreases link
  {
    match link
    case Same =>
    case Back(l) => SettledLink(R, l, b, a);
    case Join(l, mid, m) =>
      SettledLink(R, l, a, mid);
      SettledLink(R, m, mid, b);
    case Inside(u, l, v, x, y) =>
      SettledLink(R, l, x, y);
      ExpandConcat(R, u + x, v); ExpandConcat(R, u, x);
      ExpandConcat(R, u + y, v); ExpandConcat(R, u, y);
    case Open(s, ls) =>
      SettledRow(R, s, ls);
      ExpandFixed(R, b);
      assert Expand(R, [s][1..]) == [];
  }

  lemma {:induction false} SettledRow(R: Rules, s: Sym, ls: seq<Link>)
    requires Settled(R) && Equated(R, s, ls)
    ensures Inlinable(R, s)
    decreases ls
  {
    if |R[s]| > 1 {
      assert R[s][0] in R[s] && R[s][1] in R[s] && NoRepeats(R[s]);
      ExpandFixed(R, R[s][0]);
      ExpandFixed(R, R[s][1]);
      assert R[s][0] != R[s][1];
      SettledLink(R, ls[1], R[s][0], R[s][1]);
      assert false;
    }
  }

  /** Squeeze only stops at grammars that are not doomed. */
  lemma SettledNotDoomed(R: Rules)
    requires Settled(R)
    ensures !Doomed(R)
  {
    if C :| Doom(R, C) {
      var c :| c in C;
      assert Dooms(R, C, c);
      var r :| r in RulesOf(R, c) && Mentions(r, C);
      assert Fixed(R, r);
      var i :| 0 <= i < |r| && r[i] in C;
      assert Dooms(R, C, r[i]);
      var ls := LinksOf(R, R[r[i]], |R[r[i]]|);
      assert Equated(R, r[i], ls);
      SettledRow(R, r[i], ls);
      assert false;
    }
  }

  // ----- runs -----

  /** One step of either kind, at any place. */
  ghost predicate Step(R: Rules, R': Rules) {
    || Deduplicated(R, R')
    || exists s: Sym, k: nat, i: nat :: SubstitutedAt(R, R', s, k, i)
  }

  predicate SubstitutedAt(R: Rules, R': Rules, s: Sym, k: nat, i: nat) {
    s < |R| && k < |R[s]| && i < |R[s][k]| && Inlinable(R, R[s][k][i]) && R' == Inlined(R, s, k, i)
  }

  ghost predicate Run(run: seq<Rules>) {
    forall j :: 0 < j < |run| ==> Step(run[j - 1], run[j])
  }

  /** However the steps are chosen and ordered: from a doomed grammar none leads to a settled one. */
  lemma {:induction false} DoomedForever(run: seq<Rules>)
    requires Run(run) && run != [] && Doomed(run[0])
    ensures Doomed(run[|run| - 1]) && !Settled(run[|run| - 1])
  {
    var n := |run| - 1;
    if n > 0 {
      DoomedForever(run[..n]);
      var R, R' := run[n - 1], run[n];
      assert Step(R, R');
      if Deduplicated(R, R') {
        DeduplicatedDoomed(R, R');
      } else {
        var s: Sym, k: nat, i: nat :| SubstitutedAt(R, R', s, k, i);
        InlinedDoomed(R, s, k, i);
      }
    }
    if Settled(run[n]) { SettledNotDoomed(run[n]); }
  }

  // ----- doomed grammars have symbols without sentences -----

  ghost predicate InDoom(R: Rules, s: Sym) {
    exists C :: Doom(R, C) && s in C
  }

  ghost function AllDoom(R: Rules): set<Sym> {
    set s | 0 <= s < |R| && InDoom(R, s)
  }

  lemma InDoomMember(R: Rules, C: set<Sym>, s: Sym)
    requires Doom(R, C) && s in C
    ensures s in AllDoom(R) && AllAlike(R, RulesOf(R, s)) && MentionedBy(RulesOf(R, s), AllDoom(R))
  {
    assert Dooms(R, C, s);
    var r :| r in RulesOf(R, s) && Mentions(r, C);
    forall c | c in C ensures c in AllDoom(R) { assert Dooms(R, C, c) && InDoom(R, c); }
    MentionsMore(r, C, AllDoom(R));
  }

  /** A symbol whose rules are all alike and mention the doomed symbols is one of them. */
  lemma AllDoomClosed(R: Rules, s: Sym)
    requires AllAlike(R, RulesOf(R, s)) && MentionedBy(RulesOf(R, s), AllDoom(R))
    ensures s in AllDoom(R)
  {
    var D := AllDoom(R) + {s};
    forall c | c in D ensures Dooms(R, D, c) {
      if c in AllDoom(R) {
        var C :| Doom(R, C) && c in C;
        InDoomMember(R, C, c);
      }
      var r :| r in RulesOf(R, c) && Mentions(r, AllDoom(R));
      MentionsMore(r, AllDoom(R), D);
    }
    assert Doom(R, D);
    InDoomMember(R, D, s);
  }

  lemma {:induction false} LinkMentions(R: Rules, link: Link, a: seq<Sym>, b: seq<Sym>)
    requires Linked(R, link, a, b)
    ensures Mentions(a, AllDoom(R)) <==> Mentions(b, AllDoom(R))
    decreases link
  {
    var C := AllDoom(R);
    match link
    case Same =>
    case Back(l) => LinkMentions(R, l, b, a);
    case Join(l, mid, m) =>
      LinkMentions(R, l, a, mid);
      LinkMentions(R, m, mid, b);
    case Inside(u, l, v, x, y) =>
      LinkMentions(R, l, x, y);
      MentionsConcat(u + x, v, C); MentionsConcat(u, x, C);
      MentionsConcat(u + y, v, C); MentionsConcat(u, y, C);
    case Open(s, ls) =>
      RowMentions(R, s, ls);
      assert [s][0] == s;
      if Mentions(b, C) { assert s in C; }
      if s in C { assert Mentions([s], C); }
  }

  /** Either all the rules of such a symbol mention the doomed symbols, and it is one, or none does. */
  lemma {:induction false} RowMentions(R: Rules, s: Sym, ls: seq<Link>)
    requires Equated(R, s, ls)
    ensures forall r :: r in R[s] ==> (Mentions(r, AllDoom(R)) <==> s in AllDoom(R))
    decreases ls
  {
    var C, row := AllDoom(R), R[s];
    forall k | 0 <= k < |row| ensures Mentions(row[k], C) <==> Mentions(row[0], C) {
      LinkMentions(R, ls[k], row[0], row[k]);
    }
    CarryRow(R, R, s, ls) by { SelfCarries(R); }
    if Mentions(row[0], C) {
      assert row[0] in RulesOf(R, s);
      AllDoomClosed(R, s);
    }
    if s in C {
      var D :| Doom(R, D) && s in D;
      InDoomMember(R, D, s);
      var r :| r in row && Mentions(r, C);
    }
  }

  lemma SelfCarries(R: Rules)
    ensures Carries(R, R)
  {
    forall s: Sym, r | r in RulesOf(R, s) && AllAlike(R, RulesOf(R, s)) ensures Alike(R, [s], r) {
      AlikeOpen(R, s, r);
    }
  }

  /** Every rule of a doomed symbol mentions a doomed symbol: none of them derives a string of terminals. */
  lemma DoomedBarren(R: Rules)
    requires Doomed(R)
    ensures AllDoom(R) != {} && Barren(R, AllDoom(R))
  {
    var C :| Doom(R, C);
    var c :| c in C;
    InDoomMember(R, C, c);
    forall s: Sym, r | s in AllDoom(R) && r in RulesOf(R, s) ensures Mentions(r, AllDoom(R)) {
      var D :| Doom(R, D) && s in D;
      InDoomMember(R, D, s);
      var ls := LinksOf(R, R[s], |R[s]|);
      assert Equated(R, s, ls);
      RowMentions(R, s, ls);
    }
    forall s | s in AllDoom(R) ensures RulesOf(R, s) != [] {
      var D :| Doom(R, D) && s in D;
      InDoomMember(R, D, s);
    }
  }

  /** In particular squeeze stops if every symbol derives some string of terminals. */
  lemma ProductiveNotDoomed(R: Rules)
    requires AllProductive(R)
    ensures !Doomed(R)
  {
    if Doomed(R) {
      DoomedBarren(R);
      var s :| s in AllDoom(R);
      assert Productive(R, [s]);
      var w :| Sentence(R, [s], w);
      var f :| Derivation(R, f, [s], w);
      assert [s][0] in AllDoom(R) && Mentions([s], AllDoom(R));
      BarrenForest(R, AllDoom(R), f);
      assert false;
    }
  }

  // ----- unproductive grammars on either side -----

  /** a ::= x a | y a with terminals x and y derives nothing, yet squeeze leaves it as it is. */
  lemma UnproductiveSettled()
    ensures var R := [[[1, 0], [2, 0]], [], []]; Settled(R) && !Doomed(R) && !Productive(R, [0])
  {
    var R: Rules := [[[1, 0], [2, 0]], [], []];
    SettledNotDoomed(R);
    assert Barren(R, {0}) by {
      forall b | b in RulesOf(R, 0) ensures Mentions(b, {0}) { assert b[1] in {0}; }
    }
    if Productive(R, [0]) {
      var w :| Sentence(R, [0], w);
      var f :| Derivation(R, f, [0], w);
      assert [0][0] in {0} && Mentions([0], {0});
      BarrenForest(R, {0}, f);
      assert false;
    }
  }

  /** With x ::= z and y ::= z the two rules of a become one, which squeeze then copies into itself for ever,
      although there is no cycle of single rules at first. */
  lemma DoomedByMerging()
    ensures var R := [[[1, 0], [2, 0]], [[3]], [[3]], []]; Doomed(R) && !HasCycle(R)
  {
    var R: Rules := [[[1, 0], [2, 0]], [[3]], [[3]], []];
    assert RulesOf(R, 1) == [[3]] == RulesOf(R, 2);
    MergedAlike(R);
    var row := RulesOf(R, 0);
    assert [1, 0] in row && Mentions([1, 0], {0}) by { assert row[0] == [1, 0] && [1, 0][1] in {0}; }
    assert Dooms(R, {0}, 0);
    assert Doom(R, {0});
    var W := [0, 1, 1, 0];
    assert Weighs(R, W) by {
      assert WeightOf(W, [3]) == 0 by { assert [3][1..] == []; }
    }
    assert Weighable(R);
    WeighableExactly(R);
  }

  lemma MergedAlike(R: Rules)
    requires RulesOf(R, 1) == [[3]] == RulesOf(R, 2)
    ensures AllAlike(R, [[1, 0], [2, 0]])
  {
    AlikeRefl(R, [3]);
    AlikeOpen(R, 1, [3]);
    AlikeOpen(R, 2, [3]);
    AlikeSym(R, [2], [3]);
    AlikeTrans(R, [1], [3], [2]);
    AlikeInside(R, [], [1], [2], [0]);
    assert [] + [1] + [0] == [1, 0] && [] + [2] + [0] == [2, 0];
    AlikeSym(R, [1, 0], [2, 0]);
    AlikeRefl(R, [1, 0]);
    AlikeRefl(R, [2, 0]);
  }
}
