/** squeeze.c: what its two kinds of change, putting the only rule of a symbol for the symbol and removing a
    repeated rule, do to the languages of a grammar. */
module SqueezeSteps {
  import opened Grammars
  import opened Wrappers

  // ----- languages under a change of rules -----

  /** The same symbols are terminals. */
  predicate SameKinds(R: Rules, R': Rules) {
    |R| == |R'| && forall s :: 0 <= s < |R| ==> (R[s] == [] <==> R'[s] == [])
  }

  /** R' gives the terminal strings of R by derivations that are no longer. */
  ghost predicate NoLonger(R: Rules, R': Rules) {
    forall f :: Valid(R, f) && AllTerminal(R, Yield(f)) ==>
      exists f' :: Derivation(R', f', Roots(f), Yield(f)) && Steps(f') <= Steps(f)
  }

  lemma NoLongerSentences(R: Rules, R': Rules)
    requires SameKinds(R, R') && NoLonger(R, R')
    ensures forall alpha, w :: Sentence(R, alpha, w) ==> Sentence(R', alpha, w)
  {
    forall alpha, w | Sentence(R, alpha, w) ensures Sentence(R', alpha, w) {
      var f :| Derivation(R, f, alpha, w);
      var f' :| Derivation(R', f', Roots(f), Yield(f)) && Steps(f') <= Steps(f);
    }
  }

  lemma NoLongerTrans(R: Rules, R': Rules, R'': Rules)
    requires SameKinds(R, R') && NoLonger(R, R') && NoLonger(R', R'')
    ensures NoLonger(R, R'')
  {
    forall f | Valid(R, f) && AllTerminal(R, Yield(f))
      ensures exists f'' :: Derivation(R'', f'', Roots(f), Yield(f)) && Steps(f'') <= Steps(f)
    {
      var f' :| Derivation(R', f', Roots(f), Yield(f)) && Steps(f') <= Steps(f);
      var f'' :| Derivation(R'', f'', Roots(f'), Yield(f')) && Steps(f'') <= Steps(f');
    }
  }

  // ----- symbols without sentences -----

  predicate Mentions(alpha: seq<Sym>, C: set<Sym>) {
    exists i :: 0 <= i < |alpha| && alpha[i] in C
  }

  /** C consists of nonterminals, and every rule of a member mentions a member again. */
  ghost predicate Barren(R: Rules, C: set<Sym>) {
    && (forall c :: c in C ==> RulesOf(R, c) != [])
    && (forall c: Sym, b :: c in C && b in RulesOf(R, c) ==> Mentions(b, C))
  }

  /** Nothing that mentions C derives a string of terminals. */
  lemma {:induction false} BarrenForest(R: Rules, C: set<Sym>, f: Forest)
    requires Barren(R, C) && Valid(R, f) && AllTerminal(R, Yield(f))
    ensures !Mentions(Roots(f), C)
  {
    match f
    case Nil =>
    case Leaf(t, rest) =>
      TerminalTail([t], Yield(rest), R);
      BarrenForest(R, C, rest);
      assert Yield(f)[0] == t && Terminal(R, t);
      MentionsConcat([t], Roots(rest), C);
    case Node(s, kids, rest) =>
      TerminalTail(Yield(kids), Yield(rest), R);
      BarrenForest(R, C, kids);
      BarrenForest(R, C, rest);
      MentionsConcat([s], Roots(rest), C);
  }

  lemma MentionsConcat(a: seq<Sym>, b: seq<Sym>, C: set<Sym>)
    ensures Mentions(a + b, C) <==> Mentions(a, C) || Mentions(b, C)
  {
    var c := a + b;
    if i :| 0 <= i < |a| && a[i] in C { assert c[i] == a[i]; }
    if i :| 0 <= i < |b| && b[i] in C { assert c[|a| + i] == b[i]; }
  }

  // ----- one substitution of squeezesymbols -----

  /** Symbol s has exactly one rule, and it is not null: squeezesymbols inlines it. */
  predicate Inlinable(R: Rules, s: Sym) {
    s < |R| && |R[s]| == 1 && R[s][0] != []
  }

  /** The rules after element i of rule k of symbol s gave way to the only rule of that element. */
  function Inlined(R: Rules, s: Sym, k: nat, i: nat): Rules
    requires s < |R| && k < |R[s]| && i < |R[s][k]| && Inlinable(R, R[s][k][i])
  {
    var r := R[s][k];
    R[s := R[s][k := r[..i] + R[r[i]][0] + r[i + 1..]]]
  }

  /** The row f consists of a, b and c. */
  ghost predicate InThree(f: Forest, a: Forest, b: Forest, c: Forest) {
    && Roots(f) == Roots(a) + Roots(b) + Roots(c)
    && Yield(f) == Yield(a) + Yield(b) + Yield(c)
    && Steps(f) == Steps(a) + Steps(b) + Steps(c)
  }

  lemma Join3(R: Rules, a: Forest, b: Forest, c: Forest) returns (f: Forest)
    requires Valid(R, a) && Valid(R, b) && Valid(R, c)
    ensures Valid(R, f) && InThree(f, a, b, c)
  {
    AppendParts(R, a, b);
    AppendParts(R, Append(a, b), c);
    f := Append(Append(a, b), c);
  }

  /** A row cut into what stands before the n roots from position i, these, and what stands behind them. */
  lemma Cut3(R: Rules, f: Forest, i: nat, n: nat) returns (a: Forest, b: Forest, c: Forest)
    requires Valid(R, f) && i + n <= |Roots(f)|
    ensures Valid(R, a) && Valid(R, b) && Valid(R, c) && InThree(f, a, b, c)
    ensures Roots(a) == Roots(f)[..i] && Roots(b) == Roots(f)[i..i + n] && Roots(c) == Roots(f)[i + n..]
  {
    var bc;
    a, bc := Cut(R, f, i);
    b, c := Cut(R, bc, n);
    ConcatAssoc(Yield(a), Yield(b), Yield(c));
    assert Roots(f)[i..][..n] == Roots(f)[i..i + n] && Roots(f)[i..][n..] == Roots(f)[i + n..];
  }

  /** A single tree that applies a rule. */
  lemma Apart(R: Rules, f: Forest) returns (kids: Forest)
    requires Valid(R, f) && AllTerminal(R, Yield(f)) && |Roots(f)| == 1 && !Terminal(R, Roots(f)[0])
    ensures Valid(R, kids) && Roots(kids) in RulesOf(R, Roots(f)[0]) && Yield(kids) == Yield(f)
    ensures Steps(kids) + 1 == Steps(f)
  {
    if Yield(f) != [] { assert Terminal(R, Yield(f)[0]); }
    match f
    case Leaf(t, rest) => assert false;
    case Node(s, k, rest) =>
      assert rest == Nil;
      kids := k;
  }

  /** Replaces the tree at root i, which applies a rule, by its children. */
  lemma Unwrap(R: Rules, f: Forest, i: nat) returns (x: Sym, body: Rule, f': Forest)
    requires Valid(R, f) && AllTerminal(R, Yield(f)) && i < |Roots(f)| && !Terminal(R, Roots(f)[i])
    ensures x == Roots(f)[i] && body in RulesOf(R, x)
    ensures Derivation(R, f', Roots(f)[..i] + body + Roots(f)[i + 1..], Yield(f)) && Steps(f') + 1 == Steps(f)
  {
    var a, b, c := Cut3(R, f, i, 1);
    TerminalTail(Yield(a) + Yield(b), Yield(c), R);
    TerminalTail(Yield(a), Yield(b), R);
    var kids := Apart(R, b);
    x, body := Roots(f)[i], Roots(kids);
    f' := Join3(R, a, kids, c);
  }

  /** Every complete derivation of R becomes one of the inlined grammar that takes no more steps. */
  lemma {:induction false} InlineForest(R: Rules, s: Sym, k: nat, i: nat, f: Forest) returns (f': Forest)
    requires s < |R| && k < |R[s]| && i < |R[s][k]| && Inlinable(R, R[s][k][i])
    requires Valid(R, f) && AllTerminal(R, Yield(f))
    ensures Derivation(Inlined(R, s, k, i), f', Roots(f), Yield(f)) && Steps(f') <= Steps(f)
  {
    match f
    case Nil => f' := Nil;
    case Leaf(t, rest) =>
      TerminalTail([t], Yield(rest), R);
      var r := InlineForest(R, s, k, i, rest);
      f' := Leaf(t, r);
    case Node(t, kids, rest) =>
      TerminalTail(Yield(kids), Yield(rest), R);
      if t == s { SelfUse(R, s, k, i, kids); }
      var r := InlineForest(R, s, k, i, rest);
      var ks := InlineForest(R, s, k, i, kids);
      ks := InlineKids(R, s, k, i, t, ks);
      f' := Node(t, ks, r);
  }

  /** A single rule that uses its own symbol is in no complete derivation. */
  lemma SelfUse(R: Rules, s: Sym, k: nat, i: nat, kids: Forest)
    requires s < |R| && k < |R[s]| && i < |R[s][k]| && Inlinable(R, R[s][k][i])
    requires Roots(kids) in RulesOf(R, s) && Valid(R, kids) && AllTerminal(R, Yield(kids))
    ensures R[s][k][i] != s
  {
    if R[s][k][i] == s {
      forall b | b in RulesOf(R, s) ensures Mentions(b, {s}) { assert b == R[s][k] && b[i] in {s}; }
      assert Barren(R, {s}) && Mentions(Roots(kids), {s});
      BarrenForest(R, {s}, kids);
      assert false;
    }
  }

  /** The children of a node for t, after the trees below them were converted. */
  lemma InlineKids(R: Rules, s: Sym, k: nat, i: nat, t: Sym, kids: Forest) returns (ks: Forest)
    requires s < |R| && k < |R[s]| && i < |R[s][k]| && Inlinable(R, R[s][k][i])
    requires Roots(kids) in RulesOf(R, t) && Valid(Inlined(R, s, k, i), kids) && AllTerminal(R, Yield(kids))
    requires R[s][k][i] == s ==> t != s
    ensures Roots(ks) in RulesOf(Inlined(R, s, k, i), t)
    ensures Valid(Inlined(R, s, k, i), ks) && Yield(ks) == Yield(kids) && Steps(ks) <= Steps(kids)
  {
    var R' := Inlined(R, s, k, i);
    var j :| 0 <= j < |R[t]| && R[t][j] == Roots(kids);
    if t == s && j == k {
      forall n | 0 <= n < |Yield(kids)| ensures Terminal(R', Yield(kids)[n]) { assert Terminal(R, Yield(kids)[n]); }
      var x, body;
      x, body, ks := Unwrap(R', kids, i);
      assert R'[x] == R[x] == [body];
      assert R'[s][k] == Roots(ks);
    } else {
      assert R'[t][j] == R[t][j];
      ks := kids;
    }
  }

  /** And back: a use of the changed rule becomes a use of the old rule and of the inlined one. */
  lemma {:induction false} UninlineForest(R: Rules, s: Sym, k: nat, i: nat, f: Forest) returns (f': Forest)
    requires s < |R| && k < |R[s]| && i < |R[s][k]| && Inlinable(R, R[s][k][i])
    requires Valid(Inlined(R, s, k, i), f)
    ensures Derivation(R, f', Roots(f), Yield(f))
  {
    var R' := Inlined(R, s, k, i);
    match f
    case Nil => f' := Nil;
    case Leaf(t, rest) =>
      var r := UninlineForest(R, s, k, i, rest);
      f' := Leaf(t, r);
    case Node(t, kids, rest) =>
      var r := UninlineForest(R, s, k, i, rest);
      var ks := UninlineForest(R, s, k, i, kids);
      ks := UninlineKids(R, s, k, i, t, ks);
      f' := Node(t, ks, r);
  }

  lemma InlinedSlices(r: Rule, i: nat, b: Rule)
    requires i < |r|
    ensures var r' := r[..i] + b + r[i + 1..];
      && r'[..i] == r[..i] && r'[i..i + |b|] == b && r'[i + |b|..] == r[i + 1..] && r == r[..i] + [r[i]] + r[i + 1..]
  {
  }

  /** The children of a node for t, after the trees below them were converted back. */
  lemma UninlineKids(R: Rules, s: Sym, k: nat, i: nat, t: Sym, kids: Forest) returns (ks: Forest)
    requires s < |R| && k < |R[s]| && i < |R[s][k]| && Inlinable(R, R[s][k][i])
    requires Roots(kids) in RulesOf(Inlined(R, s, k, i), t) && Valid(R, kids)
    ensures Roots(ks) in RulesOf(R, t) && Valid(R, ks) && Yield(ks) == Yield(kids)
  {
    var R' := Inlined(R, s, k, i);
    var j :| 0 <= j < |R'[t]| && R'[t][j] == Roots(kids);
    if t == s && j == k {
      InlinedSlices(R[s][k], i, R[R[s][k][i]][0]);
      ks := Wrap(R, kids, i, R[s][k][i]);
    } else {
      assert R'[t][j] == R[t][j];
      ks := kids;
    }
  }

  /** Gathers the roots that spell the only rule of x, from position i on, under one x. */
  lemma Wrap(R: Rules, f: Forest, i: nat, x: Sym) returns (f': Forest)
    requires Valid(R, f) && Inlinable(R, x)
    requires i + |R[x][0]| <= |Roots(f)| && Roots(f)[i..i + |R[x][0]|] == R[x][0]
    ensures Valid(R, f') && Yield(f') == Yield(f)
    ensures Roots(f') == Roots(f)[..i] + [x] + Roots(f)[i + |R[x][0]|..]
  {
    var a, b, c := Cut3(R, f, i, |R[x][0]|);
    var t := Node(x, b, Nil);
    assert Roots(t) == [x] && Yield(t) == Yield(b);
    f' := Join3(R, a, t, c);
  }

  lemma InlineKeeps(R: Rules, s: Sym, k: nat, i: nat)
    requires s < |R| && k < |R[s]| && i < |R[s][k]| && Inlinable(R, R[s][k][i])
    ensures var R' := Inlined(R, s, k, i); SameKinds(R, R') && NoLonger(R, R') && SameLanguage(R, R')
  {
    var R' := Inlined(R, s, k, i);
    forall f | Valid(R, f) && AllTerminal(R, Yield(f))
      ensures exists f' :: Derivation(R', f', Roots(f), Yield(f)) && Steps(f') <= Steps(f)
    {
      var f' := InlineForest(R, s, k, i, f);
    }
    NoLongerSentences(R, R');
    forall alpha, w | Sentence(R', alpha, w) ensures Sentence(R, alpha, w) {
      var f :| Derivation(R', f, alpha, w);
      var f' := UninlineForest(R, s, k, i, f);
      forall j | 0 <= j < |w| ensures Terminal(R, w[j]) { assert Terminal(R', w[j]); }
    }
  }

  // ----- removing repeated rules -----

  ghost predicate NoRepeats(row: seq<Rule>) {
    forall a, b :: 0 <= a < b < |row| ==> row[a] != row[b]
  }

  ghost predicate SameMembers(row: seq<Rule>, row': seq<Rule>) {
    forall r :: r in row <==> r in row'
  }

  /** The same rules for every symbol, each perhaps less often. */
  ghost predicate Deduplicated(R: Rules, R': Rules) {
    && |R| == |R'|
    && (forall s :: 0 <= s < |R| ==> SameMembers(R[s], R'[s]) && |R'[s]| <= |R[s]|)
    && ((forall s :: 0 <= s < |R| ==> |R'[s]| == |R[s]|) ==> R' == R)
  }

  lemma DeduplicatedKeeps(R: Rules, R': Rules)
    requires Deduplicated(R, R')
    ensures SameKinds(R, R') && SameLanguage(R, R')
  {
    assert SameKinds(R, R') by {
      forall s | 0 <= s < |R| ensures R[s] == [] <==> R'[s] == [] {
        if R[s] != [] { assert R[s][0] in R'[s]; }
        if R'[s] != [] { assert R'[s][0] in R[s]; }
      }
    }
    forall alpha, w ensures Sentence(R, alpha, w) <==> Sentence(R', alpha, w) {
      if Sentence(R, alpha, w) { SameRulesSentence(R, R', alpha, w); }
      if Sentence(R', alpha, w) { SameRulesSentence(R', R, alpha, w); }
    }
  }

  lemma SameRulesSentence(R: Rules, R': Rules, alpha: seq<Sym>, w: seq<Sym>)
    requires SameKinds(R, R') && Sentence(R, alpha, w)
    requires forall s :: 0 <= s < |R| ==> SameMembers(R[s], R'[s])
    ensures Sentence(R', alpha, w)
  {
    var f :| Derivation(R, f, alpha, w);
    forall s: Sym, b | b in RulesOf(R, s) ensures b in RulesOf(R', s) { assert SameMembers(R[s], R'[s]); }
    ValidSameRules(R, R', f);
    assert Derivation(R', f, alpha, w);
    forall i | 0 <= i < |w| ensures Terminal(R', w[i]) { assert Terminal(R, w[i]); }
  }

  // ----- productivity -----

  ghost predicate Productive(R: Rules, alpha: seq<Sym>) {
    exists w :: Sentence(R, alpha, w)
  }

  /** Every symbol derives some string of terminals. */
  ghost predicate AllProductive(R: Rules) {
    forall s: Sym :: Productive(R, [s])
  }
}
