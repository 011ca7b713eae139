/** squeeze.c: removes repeated rules and inlines symbols that have a single rule. */
module Squeezing {
  import opened Grammars
  import opened SameRules
  import opened SqueezeSteps
  import opened SqueezeEnds
  import opened SqueezeDooms

  // ----- squeezesymbols -----

  /** squeezesymbols never changes how many rules a symbol has. */
  predicate SameCounts(R: Rules, R': Rules) {
    |R| == |R'| && forall s :: 0 <= s < |R| ==> |R[s]| == |R'[s]|
  }

  /** A substitution more makes the rules lighter by at least one, however they are weighed. */
  ghost predicate Lighter(R: Rules, R': Rules, n: nat) {
    forall W :: Weighs(R, W) ==> Weighs(R', W) && Total(W, R') + n <= Total(W, R)
  }

  ghost predicate CyclesKept(R: Rules, R': Rules) {
    forall C :: CycleOfSingles(R, C) ==> CycleOfSingles(R', C)
  }

  /** Everything that n substitutions keep. */
  ghost predicate Squeezed(R: Rules, R': Rules, n: nat) {
    && SameCounts(R, R') && SameKinds(R, R') && NoLonger(R, R') && SameLanguage(R, R')
    && (Doomed(R) <==> Doomed(R')) && Lighter(R, R', n) && CyclesKept(R, R') && (n == 0 ==> R' == R)
  }

  lemma SqueezedStep(R: Rules, R': Rules, n: nat, s: Sym, k: nat, i: nat)
    requires Squeezed(R, R', n) && s < |R'| && k < |R'[s]| && i < |R'[s][k]| && Inlinable(R', R'[s][k][i])
    ensures Squeezed(R, Inlined(R', s, k, i), n + 1)
  {
    var R'' := Inlined(R', s, k, i);
    InlineKeeps(R', s, k, i);
    NoLongerTrans(R, R', R'');
    InlinedDoomed(R', s, k, i);
    forall W | Weighs(R, W) ensures Weighs(R'', W) && Total(W, R'') + n + 1 <= Total(W, R) {
      InlineLightens(R', W, s, k, i);
    }
    forall C | CycleOfSingles(R, C) ensures CycleOfSingles(R'', C) {
      CycleInlined(R', C, s, k, i);
    }
  }

  lemma SqueezedSelf(R: Rules)
    ensures Squeezed(R, R, 0)
  {
    forall f | Valid(R, f) && AllTerminal(R, Yield(f))
      ensures exists f' :: Derivation(R, f', Roots(f), Yield(f)) && Steps(f') <= Steps(f)
    {
      assert Derivation(R, f, Roots(f), Yield(f));
    }
  }

  lemma UpdateTwice(R: Rules, s: Sym, p: nat, x: Rule, y: Rule)
    requires s < |R| && p < |R[s]|
    ensures var R' := R[s := R[s][p := x]]; R'[s := R'[s][p := y]] == R[s := R[s][p := y]]
  {
    assert R[s][p := x][p := y] == R[s][p := y];
  }

  /** The inner part of squeezesymbols, for a symbol s1 other than the owner of the rule: the first element of
      the single rule of s1 overwrites element e, the others are copied one by one behind it, and e moves to the
      last of them. */
  method SubstituteOther(g: Grammar, s: Sym, p: nat, e: nat) returns (e': nat)
    requires s < |g.rules| && p < |g.rules[s]| && e < |g.rules[s][p]|
    requires Inlinable(g.rules, g.rules[s][p][e]) && g.rules[s][p][e] != s
    modifies g`rules, g`changed
    ensures g.rules == old(Inlined(g.rules, s, p, e)) && g.changed
    ensures e' + 1 == e + old(|g.rules[g.rules[s][p][e]][0]|)
  {
    ghost var R, r := g.rules, g.rules[s][p];
    var s1 := g.rules[s][p][e];
    ghost var b := R[s1][0];
    g.rules := g.rules[s := g.rules[s][p := g.rules[s][p][e := g.rules[s1][0][0]]]];
    g.changed := true;
    assert g.rules[s][p] == r[..e] + b[..1] + r[e + 1..];
    var e1 := 1;
    e' := e;
    while e1 < |g.rules[s1][0]|
      invariant 1 <= e1 <= |b| && e' == e + e1 - 1 && g.changed
      invariant g.rules == R[s := R[s][p := r[..e] + b[..e1] + r[e + 1..]]]
      decreases |b| - e1
    {
      var body := g.rules[s][p];
      assert body[..e' + 1] == r[..e] + b[..e1] && body[e' + 1..] == r[e + 1..];
      assert b[..e1 + 1] == b[..e1] + [b[e1]];
      assert body[..e' + 1] + [b[e1]] + body[e' + 1..] == r[..e] + b[..e1 + 1] + r[e + 1..];
      assert g.rules[s1] == R[s1];
      UpdateTwice(R, s, p, body, r[..e] + b[..e1 + 1] + r[e + 1..]);
      g.rules := g.rules[s := g.rules[s][p := body[..e' + 1] + [g.rules[s1][0][e1]] + body[e' + 1..]]];
      e', e1 := e' + 1, e1 + 1;
    }
    assert b[..e1] == b;
  }

  /** The copying when a rule is its own source: the element read from moves with the elements put before it. */
  datatype Cursor = Cursor(body: Rule, e: nat, e1: nat)

  function CopyOne(c: Cursor): Cursor
    requires c.e < |c.body| && c.e1 < |c.body|
  {
    Cursor(
      c.body[..c.e + 1] + [c.body[c.e1]] + c.body[c.e + 1..],
      c.e + 1,
      if c.e1 > c.e then c.e1 + 2 else c.e1 + 1)
  }

  /** After n elements were copied. */
  function Copied(c: Cursor, n: nat): (c': Cursor)
    requires c.e1 <= c.e < |c.body|
    ensures c'.e1 <= c'.e < |c'.body|
  {
    if n == 0 then c else CopyOne(Copied(c, n - 1))
  }

  /** Having copied n elements for a use of s in its own rule r that is not in front, there is one more to copy. */
  predicate CopiesOn(r: Rule, e: nat, n: nat)
    requires 0 < e < |r|
  {
    var c := Copied(Cursor(r[e := r[0]], e, 1), n);
    c.e1 < |c.body| && |c.body| == |r| + n
  }

  /** The copying reads what it has just written, and never comes to an end. */
  lemma {:induction false} CopiesForever(r: Rule, e: nat, n: nat)
    requires 0 < e < |r|
    ensures CopiesOn(r, e, n)
  {
    if n > 0 {
      CopiesForever(r, e, n - 1);
    }
  }

  /** The use in front: the rule gets a second copy of all but its first element. */
  method SubstituteSelf(g: Grammar, s: Sym) returns (e': nat)
    requires Inlinable(g.rules, s) && g.rules[s][0][0] == s
    modifies g`rules, g`changed
    ensures g.rules == old(Inlined(g.rules, s, 0, 0)) && g.changed
    ensures e' + 1 == old(|g.rules[s][0]|)
  {
    ghost var R, r := g.rules, g.rules[s][0];
    g.rules := g.rules[s := g.rules[s][0 := g.rules[s][0][0 := g.rules[s][0][0]]]];
    g.changed := true;
    var e1 := 1;
    e' := 0;
    assert R[s][0 := r] == R[s] && R[s := R[s]] == R && r[0 := r[0]] == r;
    assert r[..e' + 1] + r[1..] == r;
    while e1 < |g.rules[s][0]|
      invariant e1 == 2 * e' + 1 && 0 <= e' < |r| && g.changed
      invariant g.rules == R[s := R[s][0 := r[..e' + 1] + r[1..]]]
      decreases |r| - e'
    {
      var body := g.rules[s][0];
      CopyStep(r, e');
      UpdateTwice(R, s, 0, body, r[..e' + 2] + r[1..]);
      g.rules := g.rules[s := g.rules[s][0 := body[..e' + 1] + [body[e1]] + body[e' + 1..]]];
      e', e1 := e' + 1, e1 + 2;
    }
    assert r[..e' + 1] == r && r[..0] + r + r[1..] == r + r[1..];
  }

  lemma CopyStep(r: Rule, e: nat)
    requires 0 <= e && e + 1 < |r|
    ensures 2 * e + 1 < |r[..e + 1] + r[1..]|
    ensures var body := r[..e + 1] + r[1..];
      body[..e + 1] + [body[2 * e + 1]] + body[e + 1..] == r[..e + 2] + r[1..]
  {
    var body := r[..e + 1] + r[1..];
    assert body[2 * e + 1] == r[e + 1] && body[..e + 1] == r[..e + 1] && body[e + 1..] == r[1..];
    assert r[..e + 2] == r[..e + 1] + [r[e + 1]];
  }

  /** The substitution for element e, unless its copying never ends: that is so exactly for a use of the owner of
      the rule that is not in front. */
  method Substitute(g: Grammar, s: Sym, p: nat, e: nat) returns (ends: bool, e': nat)
    requires s < |g.rules| && p < |g.rules[s]| && e < |g.rules[s][p]| && Inlinable(g.rules, g.rules[s][p][e])
    modifies g`rules, g`changed
    ensures ends <==> old(g.rules[s][p][e] != s) || e == 0
    ensures !ends ==> forall n :: CopiesOn(old(g.rules[s][p]), e, n)
    ensures ends ==> g.rules == old(Inlined(g.rules, s, p, e)) && g.changed
    ensures ends ==> e' + 1 == e + old(|g.rules[g.rules[s][p][e]][0]|)
  {
    ends := true;
    if g.rules[s][p][e] != s {
      e' := SubstituteOther(g, s, p, e);
    } else if e == 0 {
      e' := SubstituteSelf(g, s);
    } else {
      forall n ensures CopiesOn(g.rules[s][p], e, n) {
        CopiesForever(g.rules[s][p], e, n);
      }
      return false, e;
    }
  }

  /** No element of the rules named by (s', k', i') before (s, k, i) in the walk is inlinable. */
  ghost predicate ScannedTo(R: Rules, s: nat, k: nat, i: nat) {
    forall s', k', i' | 0 <= s' < |R| && 0 <= k' < |R[s']| && 0 <= i' < |R[s'][k']| ::
      s' < s || (s' == s && (k' < k || (k' == k && i' < i))) ==> !Inlinable(R, R[s'][k'][i'])
  }

  lemma ScannedAll(R: Rules)
    requires ScannedTo(R, |R|, 0, 0)
    ensures NothingInlinable(R)
  {
    forall s, r: Rule | 0 <= s < |R| && r in R[s] ensures Fixed(R, r) {
      var k :| 0 <= k < |R[s]| && R[s][k] == r;
      forall i | 0 <= i < |r| ensures !Inlinable(R, r[i]) { assert !Inlinable(R, R[s][k][i]); }
    }
  }

  /** A symbol used in its own single rule is a cycle, which substitutions cannot have made. */
  lemma SelfCycle(R: Rules, R': Rules, n: nat, s: Sym)
    requires Squeezed(R, R', n) && Inlinable(R', s) && s in R'[s][0]
    ensures HasCycle(R)
  {
    var i :| 0 <= i < |R'[s][0]| && R'[s][0][i] == s;
    assert Returns(R', {s}, s) by { assert R'[s][0][i] in {s}; }
    assert CycleOfSingles(R', {s});
    StillWeighable(R, R', n);
    WeighableExactly(R);
    WeighableExactly(R');
  }

  lemma StillWeighable(R: Rules, R': Rules, n: nat)
    requires Squeezed(R, R', n)
    ensures Weighable(R) ==> Weighable(R')
  {
  }

  lemma CycleInlines(R: Rules)
    requires HasCycle(R)
    ensures !NothingInlinable(R)
  {
    var C :| CycleOfSingles(R, C);
    DeduplicatedSelf(R);
    CycleKept(R, R, C);
    var s: Sym, k: nat, i: nat :| s < |R| && k < |R[s]| && i < |R[s][k]| && Inlinable(R, R[s][k][i]);
    assert R[s][k] in R[s] && !Fixed(R, R[s][k]);
  }

  lemma CyclesAfter(R: Rules, R': Rules, n: nat)
    requires Squeezed(R, R', n) && (n == 0 ==> NothingInlinable(R'))
    ensures HasCycle(R) <==> HasCycle(R')
    ensures HasCycle(R) ==> n > 0
  {
    WeighableExactly(R);
    WeighableExactly(R');
    StillWeighable(R, R', n);
    if C :| CycleOfSingles(R, C) {
      assert CycleOfSingles(R', C);
      CycleInlines(R);
    }
  }

  /** n substitutions made R what it is now, and if there was none no element up to (s, p, e) is inlinable. */
  ghost predicate InPass(R: Rules, now: Rules, n: nat, s: nat, p: nat, e: nat) {
    Squeezed(R, now, n) && (n == 0 ==> ScannedTo(R, s, p, e))
  }

  /** The body of the innermost loop of squeezesymbols. */
  method SqueezeElement(g: Grammar, s: Sym, p: nat, e: nat, ghost R: Rules, ghost n: nat)
    returns (ends: bool, e': nat, ghost n': nat)
    requires InPass(R, g.rules, n, s, p, e) && s < |g.rules| && p < |g.rules[s]| && e < |g.rules[s][p]|
    modifies g`rules, g`changed
    ensures ends ==> InPass(R, g.rules, n', s, p, e') && n' >= n && g.changed == (old(g.changed) || n' > n)
    ensures ends ==> e' <= |g.rules[s][p]| && |g.rules[s][p]| - e' < old(|g.rules[s][p]|) - e
    ensures !ends ==> HasCycle(R)
  {
    var s1 := g.rules[s][p][e];
    ends, e', n' := true, e, n;
    if s1 < |g.rules| && |g.rules[s1]| == 1 && g.rules[s1][0] != [] {
      SqueezedStep(R, g.rules, n, s, p, e);
      ghost var now := g.rules;
      ends, e' := Substitute(g, s, p, e);
      if !ends {
        SelfCycle(R, now, n, s);
        return;
      }
      n' := n + 1;
    }
    e' := e' + 1;
  }

  /** squeezesymbols for one rule. */
  method SqueezeRule(g: Grammar, s: Sym, p: nat, ghost R: Rules, ghost n: nat) returns (ends: bool, ghost n': nat)
    requires InPass(R, g.rules, n, s, p, 0) && s < |g.rules| && p < |g.rules[s]|
    modifies g`rules, g`changed
    ensures ends ==> InPass(R, g.rules, n', s, p + 1, 0) && n' >= n && g.changed == (old(g.changed) || n' > n)
    ensures !ends ==> HasCycle(R)
  {
    var e := 0;
    n' := n;
    while e < |g.rules[s][p]|
      invariant SameCounts(R, g.rules) && 0 <= e <= |g.rules[s][p]| && InPass(R, g.rules, n', s, p, e)
      invariant n' >= n && g.changed == (old(g.changed) || n' > n)
      decreases |g.rules[s][p]| - e
    {
      ends, e, n' := SqueezeElement(g, s, p, e, R, n');
      if !ends {
        return;
      }
    }
    ends := true;
  }

  /** One pass, of n substitutions, unless one of them never ends.  Without a cycle of single rules passes end,
      and each but the last makes the rules lighter; with one, no pass is the last. */
  method SqueezeSymbols(g: Grammar) returns (ends: bool, ghost n: nat)
    modifies g`rules, g`changed
    ensures ends ==> Squeezed(old(g.rules), g.rules, n) && g.changed == (old(g.changed) || n > 0)
    ensures ends && n == 0 ==> NothingInlinable(g.rules)
    ensures !HasCycle(old(g.rules)) ==> ends && !HasCycle(g.rules)
    ensures HasCycle(old(g.rules)) ==> !ends || (n > 0 && HasCycle(g.rules))
  {
    ghost var R := g.rules;
    n := 0;
    SqueezedSelf(R);
    var s := 0;
    while s < |g.rules|
      invariant 0 <= s <= |R| && InPass(R, g.rules, n, s, 0, 0) && g.changed == (old(g.changed) || n > 0)
    {
      var p := 0;
      while p < |g.rules[s]|
        invariant 0 <= p <= |R[s]| && InPass(R, g.rules, n, s, p, 0) && g.changed == (old(g.changed) || n > 0)
        decreases |R[s]| - p
      {
        ends, n := SqueezeRule(g, s, p, R, n);
        if !ends {
          return;
        }
        p := p + 1;
      }
      s := s + 1;
    }
    ends := true;
    if n == 0 { ScannedAll(g.rules); }
    CyclesAfter(R, g.rules, n);
  }

  lemma DeduplicatedSelf(R: Rules)
    ensures Deduplicated(R, R)
  {
  }

  // ----- squeezerules -----

  function Without(row: seq<Rule>, q: nat): seq<Rule>
    requires q < |row|
  {
    row[..q] + row[q + 1..]
  }

  ghost predicate UniqueTo(row: seq<Rule>, p: nat) {
    forall a, b :: 0 <= a < b < |row| && a < p ==> row[a] != row[b]
  }

  ghost predicate DiffersTo(row: seq<Rule>, p: nat, q: nat)
    requires p < |row|
  {
    forall b :: p < b < q && b < |row| ==> row[p] != row[b]
  }

  /** Unlinking a repetition of rule p at q loses no rule and no progress. */
  lemma WithoutKeeps(row: seq<Rule>, p: nat, q: nat)
    requires p < q < |row| && row[p] == row[q] && UniqueTo(row, p) && DiffersTo(row, p, q)
    ensures var row' := Without(row, q); SameMembers(row, row') && row'[p] == row[p]
    ensures UniqueTo(Without(row, q), p) && DiffersTo(Without(row, q), p, q)
  {
    var row' := Without(row, q);
    forall r | r in row ensures r in row' {
      var j :| 0 <= j < |row| && row[j] == r;
      assert row'[if j < q then j else if j == q then p else j - 1] == r;
    }
  }

  /** squeezerules for one symbol. */
  method SqueezeRow(g: Grammar, s: Sym)
    requires s < |g.rules|
    modifies g`rules, g`changed
    ensures |g.rules| == old(|g.rules|) && forall t :: 0 <= t < |g.rules| && t != s ==> g.rules[t] == old(g.rules[t])
    ensures SameMembers(old(g.rules[s]), g.rules[s]) && NoRepeats(g.rules[s])
    ensures |g.rules[s]| <= old(|g.rules[s]|) && (|g.rules[s]| == old(|g.rules[s]|) ==> g.rules == old(g.rules))
    ensures g.changed == (old(g.changed) || g.rules != old(g.rules))
  {
    ghost var R := g.rules;
    var p := 0;
    while p < |g.rules[s]|
      invariant |g.rules| == |R| && forall t :: 0 <= t < |R| && t != s ==> g.rules[t] == R[t]
      invariant SameMembers(R[s], g.rules[s]) && 0 <= p <= |g.rules[s]| <= |R[s]| && UniqueTo(g.rules[s], p)
      invariant |g.rules[s]| == |R[s]| ==> g.rules == R
      invariant g.changed == (old(g.changed) || |g.rules[s]| != |R[s]|)
      decreases |g.rules[s]| - p
    {
      var q := p + 1;
      ghost var n := |g.rules[s]|;
      while q < |g.rules[s]|
        invariant |g.rules| == |R| && forall t :: 0 <= t < |R| && t != s ==> g.rules[t] == R[t]
        invariant SameMembers(R[s], g.rules[s]) && p < q <= |g.rules[s]| <= |R[s]| && UniqueTo(g.rules[s], p)
        invariant DiffersTo(g.rules[s], p, q) && |g.rules[s]| <= n
        invariant |g.rules[s]| == |R[s]| ==> g.rules == R
        invariant g.changed == (old(g.changed) || |g.rules[s]| != |R[s]|)
        decreases |g.rules[s]| - q
      {
        var same := SameRule(g.rules[s][p], g.rules[s][q]);
        if same {
          WithoutKeeps(g.rules[s], p, q);
          g.rules := g.rules[s := Without(g.rules[s], q)];
          g.changed := true;
        } else {
          q := q + 1;
        }
      }
      p := p + 1;
    }
  }

  ghost function Count(R: Rules): nat {
    if R == [] then 0 else |R[0]| + Count(R[1..])
  }

  lemma {:induction false} CountOrder(R: Rules, R': Rules)
    requires |R| == |R'| && forall s :: 0 <= s < |R| ==> |R'[s]| <= |R[s]|
    ensures Count(R') <= Count(R)
    ensures (exists s :: 0 <= s < |R| && |R'[s]| < |R[s]|) ==> Count(R') < Count(R)
  {
    if R != [] {
      CountOrder(R[1..], R'[1..]);
      if s :| 0 <= s < |R| && |R'[s]| < |R[s]| {
        if s > 0 { assert |R'[1..][s - 1]| < |R[1..][s - 1]|; }
      }
    }
  }

  method SqueezeRules(g: Grammar)
    modifies g`rules, g`changed
    ensures Deduplicated(old(g.rules), g.rules)
    ensures forall s :: 0 <= s < |g.rules| ==> NoRepeats(g.rules[s])
    ensures g.changed == (old(g.changed) || g.rules != old(g.rules))
  {
    ghost var R := g.rules;
    var s := 0;
    while s < |g.rules|
      invariant 0 <= s <= |R| == |g.rules|
      invariant forall t :: s <= t < |R| ==> g.rules[t] == R[t]
      invariant forall t :: 0 <= t < s ==> NoRepeats(g.rules[t])
      invariant forall t :: 0 <= t < |R| ==> SameMembers(R[t], g.rules[t]) && |g.rules[t]| <= |R[t]|
      invariant (forall t :: 0 <= t < |R| ==> |g.rules[t]| == |R[t]|) ==> g.rules == R
      invariant g.changed == (old(g.changed) || g.rules != R)
    {
      ghost var now := g.rules;
      SqueezeRow(g, s);
      if |g.rules[s]| < |now[s]| { assert |g.rules[s]| < |R[s]|; }
      s := s + 1;
    }
  }

  // ----- the interface -----

  /** What a round gains, as it can only do finitely often. */
  ghost predicate Progress(R: Rules, W: seq<nat>, R': Rules, W': seq<nat>, more: bool) {
    || Count(R') < Count(R)
    || (Count(R') == Count(R) && (Total(W', R') < Total(W, R) || (Total(W', R') == Total(W, R) && !more)))
  }

  /** One round of squeeze, unless its squeezesymbols never ends, which only a doomed grammar can bring about. */
  method SqueezeRound(g: Grammar, ghost W: seq<nat>) returns (ends: bool, ghost W': seq<nat>)
    modifies g`rules, g`changed
    ensures ends ==> SameKinds(old(g.rules), g.rules) && SameLanguage(old(g.rules), g.rules)
    ensures ends ==> (Doomed(old(g.rules)) <==> Doomed(g.rules))
    ensures ends && !g.changed ==> Settled(g.rules)
    ensures !Doomed(old(g.rules)) ==> ends
    ensures !Doomed(old(g.rules)) && Weighs(old(g.rules), W) ==>
      Weighs(g.rules, W') && Progress(old(g.rules), W, g.rules, W', g.changed)
  {
    ghost var R := g.rules;
    g.changed := false;
    SqueezeRules(g);
    ghost var R1, removed := g.rules, g.changed;
    DeduplicatedKeeps(R, R1);
    DeduplicatedDoomed(R, R1);
    CountOrder(R, R1);
    W' := W;
    if removed && !Doomed(R1) { W' := Weights(R1); }
    ghost var n;
    ends, n := SqueezeSymbols(g);
    if HasCycle(R1) { HasCycleDoomed(R1); }
    if ends {
      CountOrder(R1, g.rules);
      CountOrder(g.rules, R1);
    }
  }

  lemma HasCycleDoomed(R: Rules)
    requires HasCycle(R)
    ensures Doomed(R)
  {
    var C :| CycleOfSingles(R, C);
    CycleDoomed(R, C);
  }

  lemma Weights(R: Rules) returns (W: seq<nat>)
    requires !Doomed(R)
    ensures Weighs(R, W)
  {
    WeighableExactly(R);
    if HasCycle(R) { HasCycleDoomed(R); }
    W :| Weighs(R, W);
  }

  /** squeeze stops on every grammar that is not doomed, and keeps the language of every symbol; it leaves neither
      repeated rules nor references to symbols with exactly one (non-null) rule. */
  method Squeeze(g: Grammar)
    requires !Doomed(g.rules)
    modifies g`rules, g`changed
    ensures SameKinds(old(g.rules), g.rules) && SameLanguage(old(g.rules), g.rules) && Settled(g.rules)
  {
    ghost var R0 := g.rules;
    ghost var W := Weights(R0);
    g.changed := true;
    while g.changed
      invariant SameKinds(R0, g.rules) && SameLanguage(R0, g.rules) && !Doomed(g.rules) && Weighs(g.rules, W)
      invariant !g.changed ==> Settled(g.rules)
      decreases Count(g.rules), Total(W, g.rules), g.changed
    {
      var ends;
      ends, W := SqueezeRound(g, W);
    }
  }

  /** The same loop on any grammar, given up after m rounds.  Whenever it is done the result is as above, and on a
      doomed grammar it is done after no number of rounds. */
  method SqueezeFor(g: Grammar, m: nat) returns (done: bool)
    modifies g`rules, g`changed
    ensures done ==> SameKinds(old(g.rules), g.rules) && SameLanguage(old(g.rules), g.rules) && Settled(g.rules)
    ensures done ==> !Doomed(old(g.rules))
  {
    ghost var R0 := g.rules;
    g.changed := true;
    var j := 0;
    while g.changed && j < m
      invariant SameKinds(R0, g.rules) && SameLanguage(R0, g.rules) && (Doomed(R0) <==> Doomed(g.rules))
      invariant !g.changed ==> Settled(g.rules)
      decreases m - j
    {
      var ends;
      ghost var W;
      ends, W := SqueezeRound(g, []);
      if !ends {
        return false;
      }
      j := j + 1;
    }
    done := !g.changed;
    if done { SettledNotDoomed(g.rules); }
  }
}
