/** What deebnf promises: every symbol generates the strings of its EBNF reading. */
module DeebnfMeaning {
  import opened Wrappers
  import opened Grammars
  import opened Deebnfing
  import opened Ebnf
  import opened Processing
  import opened DeebnfMain

  // ----- the meaning of EBNF -----

  /** The sequences of symbols that items, groups and alternatives stand for. */
  ghost predicate MatchItems(i: Items, beta: seq<Sym>)
    decreases i, |beta|, 3
  {
    match i
    case End => beta == []
    case Use(s, tail) => beta != [] && beta[0] == s && MatchItems(tail, beta[1..])
    case Group(k, a, tail) => exists j :: 0 <= j <= |beta| && MatchGroup(k, a, beta[..j]) && MatchItems(tail, beta[j..])
  }

  ghost predicate MatchGroup(k: Kind, a: Alts, beta: seq<Sym>)
    decreases a, |beta|, 2
  {
    match k
    case Paren => MatchAlts(a, beta)
    case Square => beta == [] || MatchAlts(a, beta)
    case Curly => MatchStar(a, beta)
  }

  /** Any number of repetitions. */
  ghost predicate MatchStar(a: Alts, beta: seq<Sym>)
    decreases a, |beta|, 1
  {
    beta == [] || exists j :: 0 < j <= |beta| && MatchAlts(a, beta[..j]) && MatchStar(a, beta[j..])
  }

  ghost predicate MatchAlts(a: Alts, beta: seq<Sym>)
    decreases a, |beta|, 0
  {
    match a
    case Only(i) => MatchItems(i, beta)
    case Either(i, more) => MatchItems(i, beta) || MatchAlts(more, beta)
  }

  /** In the EBNF grammar R, read as asts, s may be rewritten to beta. */
  ghost predicate EbnfRule(m: Metas, R: Rules, asts: seq<Alts>, s: Sym, beta: seq<Sym>) {
    s < |R| && s < |asts| && R[s] != [] && !m.IsMeta(s) && MatchAlts(asts[s], beta)
  }

  ghost predicate EbnfValid(m: Metas, R: Rules, asts: seq<Alts>, f: Forest) {
    match f
    case Nil => true
    case Leaf(_, rest) => EbnfValid(m, R, asts, rest)
    case Node(s, kids, rest) =>
      EbnfRule(m, R, asts, s, Roots(kids)) && EbnfValid(m, R, asts, kids) && EbnfValid(m, R, asts, rest)
  }

  /** alpha generates w in the EBNF grammar, e standing for nothing. */
  ghost predicate EbnfReads(m: Metas, R: Rules, asts: seq<Alts>, e: Sym, alpha: seq<Sym>, w: seq<Sym>) {
    exists f :: EbnfDerivation(m, R, asts, f, e, alpha, w)
  }

  ghost predicate EbnfDerivation(m: Metas, R: Rules, asts: seq<Alts>, f: Forest, e: Sym, alpha: seq<Sym>, w: seq<Sym>) {
    EbnfValid(m, R, asts, f) && Roots(f) == alpha && AllTerminal(R, Yield(f)) && Erase(Yield(f), e) == w
  }

  /** asts are the readings of the rules of R. */
  ghost predicate Reading(m: Metas, R: Rules, asts: seq<Alts>) {
    |asts| == |R| && forall s {:trigger asts[s]} :: 0 <= s < |R| && !m.IsMeta(s) && R[s] != [] ==>
      Layout(m, asts[s], R[s])
  }

  // ----- symbols used -----

  ghost predicate ItemsBelow(n: nat, i: Items) {
    match i
    case End => true
    case Use(s, tail) => s < n && ItemsBelow(n, tail)
    case Group(_, a, tail) => AltsBelow(n, a) && ItemsBelow(n, tail)
  }

  ghost predicate AltsBelow(n: nat, a: Alts) {
    match a
    case Only(i) => ItemsBelow(n, i)
    case Either(i, more) => ItemsBelow(n, i) && AltsBelow(n, more)
  }

  predicate RowsBelow(n: nat, rows: seq<Rule>) {
    forall k, i :: 0 <= k < |rows| && 0 <= i < |rows[k]| ==> rows[k][i] < n
  }

  lemma GlueBelow(n: nat, x: seq<Rule>, y: seq<Rule>)
    requires x != [] && y != [] && RowsBelow(n, Glue(x, y))
    ensures RowsBelow(n, x) && RowsBelow(n, y)
  {
    var z := Glue(x, y);
    forall k, i | 0 <= k < |x| && 0 <= i < |x[k]| ensures x[k][i] < n {
      assert z[k][i] == x[k][i];
    }
    forall k, i | 0 <= k < |y| && 0 <= i < |y[k]| ensures y[k][i] < n {
      if k == 0 { assert z[|x| - 1][|x[|x| - 1]| + i] == y[0][i]; } else { assert z[|x| - 1 + k] == y[k]; }
    }
  }

  lemma {:induction false} FlatItemsBelow(m: Metas, n: nat, i: Items)
    requires RowsBelow(n, FlatItems(m, i))
    ensures ItemsBelow(n, i)
    decreases i
  {
    match i
    case End =>
    case Use(s, tail) =>
      GlueBelow(n, [[s]], FlatItems(m, tail));
      assert [[s]][0][0] < n;
      FlatItemsBelow(m, n, tail);
    case Group(k, a, tail) =>
      var t := Glue([[m.Right(k)]], FlatItems(m, tail));
      GlueBelow(n, [[m.Left(k)]], Glue(Flat(m, a), t));
      GlueBelow(n, Flat(m, a), t);
      GlueBelow(n, [[m.Right(k)]], FlatItems(m, tail));
      FlatBelow(m, n, a);
      FlatItemsBelow(m, n, tail);
  }

  lemma {:induction false} FlatBelow(m: Metas, n: nat, a: Alts)
    requires RowsBelow(n, Flat(m, a))
    ensures AltsBelow(n, a)
    decreases a
  {
    match a
    case Only(i) => FlatItemsBelow(m, n, i);
    case Either(i, more) =>
      var x, y := FlatItems(m, i), Flat(m, more);
      assert forall k :: 0 <= k < |x| ==> (x + y)[k] == x[k];
      assert forall k :: 0 <= k < |y| ==> (x + y)[|x| + k] == y[k];
      FlatItemsBelow(m, n, i);
      FlatBelow(m, n, more);
  }

  // ----- from EBNF to BNF -----

  /** h reads like f, and is a derivation of terminals if f is. */
  ghost predicate ReadsLike(R: Rules, e: Sym, f: Forest, h: Forest) {
    Erase(Yield(h), e) == Erase(Yield(f), e) && (AllTerminal(R, Yield(f)) ==> AllTerminal(R, Yield(h)))
  }

  lemma ReadsLikeAppend(R: Rules, e: Sym, f1: Forest, h1: Forest, f2: Forest, h2: Forest)
    requires ReadsLike(R, e, f1, h1) && ReadsLike(R, e, f2, h2)
    ensures ReadsLike(R, e, Append(f1, f2), Append(h1, h2))
  {
    AppendParts(R, f1, f2); AppendParts(R, h1, h2);
    EraseConcat(Yield(f1), Yield(f2), e); EraseConcat(Yield(h1), Yield(h2), e);
    TerminalTail(Yield(f1), Yield(f2), R); TerminalTail(Yield(h1), Yield(h2), R);
  }

  lemma JoinBuild(R: Rules, e: Sym, f1: Forest, h1: Forest, f2: Forest, h2: Forest) returns (h: Forest)
    requires ReadsLike(R, e, f1, h1) && ReadsLike(R, e, f2, h2) && Valid(R, h1) && Valid(R, h2)
    ensures Valid(R, h) && Roots(h) == Roots(h1) + Roots(h2) && ReadsLike(R, e, Append(f1, f2), h)
  {
    h := Append(h1, h2);
    AppendParts(R, h1, h2);
    ReadsLikeAppend(R, e, f1, h1, f2, h2);
  }

  /** A single tree. */
  ghost function Tree(s: Sym, kids: Forest): Forest { Node(s, kids, Nil) }

  lemma TreeParts(R: Rules, s: Sym, kids: Forest)
    ensures Roots(Tree(s, kids)) == [s] && Yield(Tree(s, kids)) == Yield(kids)
    ensures Valid(R, Tree(s, kids)) <==> Roots(kids) in RulesOf(R, s) && Valid(R, kids)
  {
    assert [s] + Roots(Nil) == [s] && Yield(kids) + Yield(Nil) == Yield(kids);
  }

  /** The option not taken, the repetition that ends. */
  lemma EmptyTree(R: Rules, e: Sym, ns: Sym) returns (t: Forest)
    requires Terminal(R, e) && [e] in RulesOf(R, ns)
    ensures Valid(R, t) && Roots(t) == [ns] && ReadsLike(R, e, Nil, t)
  {
    var l := Leaf(e, Nil);
    assert Roots(l) == [e] + Roots(Nil) == [e] && Yield(l) == [e] + Yield(Nil) == [e];
    TreeParts(R, ns, l);
    assert Erase([e], e) == [] + Erase([e][1..], e) == [];
    t := Tree(ns, l);
  }

  /** Sets the first tree of a forest apart. */
  lemma OneTree(R: Rules, f: Forest) returns (one: Forest)
    requires !f.Nil?
    ensures one == (if f.Leaf? then Leaf(f.t, Nil) else Node(f.s, f.kids, Nil)) && Append(one, f.rest) == f
    ensures Roots(one) == [Roots(f)[0]] && Roots(f) == Roots(one) + Roots(f.rest) && Roots(f)[1..] == Roots(f.rest)
    ensures Valid(R, f) <==> Valid(R, one) && Valid(R, f.rest)
  {
    one := if f.Leaf? then Leaf(f.t, Nil) else Node(f.s, f.kids, Nil);
    AppendParts(R, one, f.rest);
    assert if f.Leaf? then Roots(one) == [f.t] + Roots(Nil) == [f.t] else Roots(one) == [f.s] + Roots(Nil) == [f.s];
  }

  lemma {:induction false} BuildItems(R: Rules, e: Sym, lo: nat, i: Items, body: Rule, f: Forest) returns (h: Forest)
    requires Terminal(R, e) && RepItems(R, e, lo, i, body) && Valid(R, f) && MatchItems(i, Roots(f))
    ensures Valid(R, h) && Roots(h) == body && ReadsLike(R, e, f, h)
    decreases i, |Roots(f)|, 3
  {
    match i
    case End =>
      h := Nil;
    case Use(s, tail) =>
      var one := OneTree(R, f);
      assert body == [s] + body[1..];
      var h' := BuildItems(R, e, lo, tail, body[1..], f.rest);
      h := JoinBuild(R, e, one, one, f.rest, h');
    case Group(k, a, tail) =>
      h := BuildGroupItem(R, e, lo, k, a, tail, body, f);
  }

  lemma {:induction false} BuildGroupItem(R: Rules, e: Sym, lo: nat, k: Kind, a: Alts, tail: Items, body: Rule,
      f: Forest)
    returns (h: Forest)
    requires Terminal(R, e) && RepItems(R, e, lo, Group(k, a, tail), body) && Valid(R, f)
    requires MatchItems(Group(k, a, tail), Roots(f))
    ensures Valid(R, h) && Roots(h) == body && ReadsLike(R, e, f, h)
    decreases Group(k, a, tail), |Roots(f)|, 2
  {
    var j :| 0 <= j <= |Roots(f)| && MatchGroup(k, a, Roots(f)[..j]) && MatchItems(tail, Roots(f)[j..]);
    var f1, f2 := Cut(R, f, j);
    var h1 := BuildGroup(R, e, lo, k, a, body[0], f1);
    var h2 := BuildItems(R, e, lo, tail, body[1..], f2);
    HeadTail(body);
    h := JoinBuild(R, e, f1, h1, f2, h2);
  }

  lemma {:induction false} BuildGroup(R: Rules, e: Sym, lo: nat, k: Kind, a: Alts, ns: Sym, f: Forest)
    returns (h: Forest)
    requires Terminal(R, e) && RepGroup(R, e, lo, k, a, ns) && Valid(R, f) && MatchGroup(k, a, Roots(f))
    ensures Valid(R, h) && Roots(h) == [ns] && ReadsLike(R, e, f, h)
    decreases a, |Roots(f)|, 2
  {
    if k == Curly {
      h := BuildStar(R, e, lo, a, ns, f);
    } else if k == Square && Roots(f) == [] {
      h := EmptyTree(R, e, ns);
    } else {
      var rows := if k == Paren then R[ns] else R[ns][1..];
      var h' := BuildAlts(R, e, ns + 1, a, rows, [], f, Nil);
      TreeParts(R, ns, h');
      h := Tree(ns, h');
      AppendParts(R, f, Nil);
      assert Yield(f) + Yield(Nil) == Yield(f);
    }
  }

  lemma {:induction false} BuildStar(R: Rules, e: Sym, lo: nat, a: Alts, ns: Sym, f: Forest) returns (h: Forest)
    requires Terminal(R, e) && RepGroup(R, e, lo, Curly, a, ns) && Valid(R, f) && MatchStar(a, Roots(f))
    ensures Valid(R, h) && Roots(h) == [ns] && ReadsLike(R, e, f, h)
    decreases a, |Roots(f)|, 1
  {
    if Roots(f) == [] {
      h := EmptyTree(R, e, ns);
    } else {
      var j :| 0 < j <= |Roots(f)| && MatchAlts(a, Roots(f)[..j]) && MatchStar(a, Roots(f)[j..]);
      var f1, f2 := Cut(R, f, j);
      var h2 := BuildStar(R, e, lo, a, ns, f2);
      var h' := BuildAlts(R, e, ns + 1, a, R[ns][1..], [ns], f1, h2);
      ReadsLikeAppend(R, e, f1, f1, f2, h2);
      TreeParts(R, ns, h');
      h := Tree(ns, h');
    }
  }

  /** f takes one of the alternatives; tail goes below the suffix of its rule. */
  lemma {:induction false} BuildAlts(R: Rules, e: Sym, lo: nat, a: Alts, rows: seq<Rule>, suffix: Rule, f: Forest,
      tail: Forest)
    returns (h: Forest)
    requires Terminal(R, e) && RepAlts(R, e, lo, a, rows, suffix)
    requires Valid(R, f) && Valid(R, tail) && MatchAlts(a, Roots(f)) && Roots(tail) == suffix
    ensures Valid(R, h) && Roots(h) in rows && ReadsLike(R, e, Append(f, tail), h)
    decreases a, |Roots(f)|, 0
  {
    if MatchItems(a.items, Roots(f)) {
      var h' := BuildItems(R, e, lo, a.items, Stem(rows[0], suffix), f);
      h := Append(h', tail);
      AppendParts(R, h', tail);
      ReadsLikeAppend(R, e, f, h', tail, tail);
      assert Stem(rows[0], suffix) + suffix == rows[0];
    } else {
      h := BuildAlts(R, e, lo, a.more, rows[1..], suffix, f, tail);
    }
  }

  // ----- from BNF to EBNF -----

  /** R is what deebnf made of R0. */
  ghost predicate Done(m: Metas, R0: Rules, R: Rules, e: Sym, asts: seq<Alts>) {
    Closed(R0) && Reading(m, R0, asts) && Deebnfed(m, R0, R, Some(e)) && e < |R0| && R0[e] == []
  }

  /** The rules of an old symbol stand for its expression. */
  lemma OldSymbol(m: Metas, R0: Rules, R: Rules, e: Sym, asts: seq<Alts>, s: Sym)
    requires Done(m, R0, R, e, asts) && s < |R0| && !m.IsMeta(s)
    ensures Terminal(R0, s) <==> Terminal(R, s)
    ensures !Terminal(R0, s) ==> RepAlts(R, e, |R0|, asts[s], R[s], []) && Plain(m, asts[s]) && AltsBelow(|R0|, asts[s])
  {
    if R0[s] != [] {
      assert Layout(m, asts[s], R0[s]) && Expressed(m, R0, R, e, s);
      FlatBelow(m, |R0|, asts[s]);
    }
  }

  /** f is an EBNF derivation of terminals that reads as w. */
  ghost predicate Result(m: Metas, R0: Rules, asts: seq<Alts>, e: Sym, f: Forest, w: seq<Sym>) {
    EbnfValid(m, R0, asts, f) && AllTerminal(R0, Yield(f)) && Erase(Yield(f), e) == w
  }

  lemma {:induction false} EbnfAppend(m: Metas, R0: Rules, asts: seq<Alts>, f: Forest, g: Forest)
    requires EbnfValid(m, R0, asts, f) && EbnfValid(m, R0, asts, g)
    ensures EbnfValid(m, R0, asts, Append(f, g))
  {
    if !f.Nil? { EbnfAppend(m, R0, asts, f.rest, g); }
  }

  lemma ResultAppend(m: Metas, R0: Rules, asts: seq<Alts>, e: Sym, f: Forest, v: seq<Sym>, g: Forest, w: seq<Sym>)
    requires Result(m, R0, asts, e, f, v) && Result(m, R0, asts, e, g, w)
    ensures Result(m, R0, asts, e, Append(f, g), v + w) && Roots(Append(f, g)) == Roots(f) + Roots(g)
  {
    EbnfAppend(m, R0, asts, f, g);
    AppendParts(R0, f, g);
    EraseConcat(Yield(f), Yield(g), e);
    TerminalTail(Yield(f), Yield(g), R0);
  }

  /** The first tree of a forest, and the others. */
  lemma FirstTree(R: Rules, e: Sym, g: Forest)
    requires !g.Nil? && Valid(R, g) && AllTerminal(R, Yield(g))
    ensures Valid(R, g.rest) && AllTerminal(R, Yield(g.rest)) && Steps(g.rest) <= Steps(g)
    ensures Roots(g) == [if g.Leaf? then g.t else g.s] + Roots(g.rest)
    ensures g.Leaf? ==> Terminal(R, g.t) && Erase(Yield(g), e) == Erase([g.t], e) + Erase(Yield(g.rest), e)
    ensures g.Node? ==>
      && Valid(R, g.kids) && AllTerminal(R, Yield(g.kids)) && Steps(g.kids) + Steps(g.rest) < Steps(g)
        && Roots(g.kids) in RulesOf(R, g.s)
      && Erase(Yield(g), e) == Erase(Yield(g.kids), e) + Erase(Yield(g.rest), e)
  {
    var first := if g.Leaf? then [g.t] else Yield(g.kids);
    assert Yield(g) == first + Yield(g.rest);
    TerminalTail(first, Yield(g.rest), R);
    EraseConcat(first, Yield(g.rest), e);
    if g.Leaf? { assert Terminal(R, first[0]); }
  }

  lemma {:induction false} ReadItems(m: Metas, R0: Rules, R: Rules, e: Sym, asts: seq<Alts>, lo: nat, i: Items,
      body: Rule, suffix: Rule, g: Forest)
    returns (f: Forest, g': Forest)
    requires Done(m, R0, R, e, asts) && RepItems(R, e, lo, i, body) && PlainItems(m, i) && ItemsBelow(|R0|, i)
    requires Valid(R, g) && Roots(g) == body + suffix && AllTerminal(R, Yield(g))
    ensures MatchItems(i, Roots(f)) && EbnfValid(m, R0, asts, f) && AllTerminal(R0, Yield(f))
    ensures Valid(R, g') && Roots(g') == suffix && AllTerminal(R, Yield(g')) && Steps(g') <= Steps(g)
    ensures Erase(Yield(g), e) == Erase(Yield(f), e) + Erase(Yield(g'), e)
    decreases Steps(g), 1, i, 1
  {
    match i
    case End =>
      assert body + suffix == suffix;
      f, g' := Nil, g;
    case Use(s, tail) =>
      FirstTree(R, e, g);
      RestRoots(if g.Leaf? then g.t else g.s, Roots(g.rest), body, suffix);
      var f1 := ReadSymbol(m, R0, R, e, asts, s, g);
      var f2;
      f2, g' := ReadItems(m, R0, R, e, asts, lo, tail, body[1..], suffix, g.rest);
      f := JoinRead(m, R0, R, asts, e, f1, f2, g, g');
      assert ([s] + Roots(f2))[1..] == Roots(f2);
    case Group(k, a, tail) =>
      f, g' := ReadGroupItem(m, R0, R, e, asts, lo, k, a, tail, body, suffix, g);
  }

  lemma {:induction false} ReadGroupItem(m: Metas, R0: Rules, R: Rules, e: Sym, asts: seq<Alts>, lo: nat, k: Kind,
      a: Alts, tail: Items,
      body: Rule, suffix: Rule, g: Forest)
    returns (f: Forest, g': Forest)
    requires Done(m, R0, R, e, asts) && RepItems(R, e, lo, Group(k, a, tail), body)
    requires Plain(m, a) && PlainItems(m, tail) && AltsBelow(|R0|, a) && ItemsBelow(|R0|, tail)
    requires Valid(R, g) && Roots(g) == body + suffix && AllTerminal(R, Yield(g))
    ensures MatchItems(Group(k, a, tail), Roots(f)) && EbnfValid(m, R0, asts, f) && AllTerminal(R0, Yield(f))
    ensures Valid(R, g') && Roots(g') == suffix && AllTerminal(R, Yield(g')) && Steps(g') <= Steps(g)
    ensures Erase(Yield(g), e) == Erase(Yield(f), e) + Erase(Yield(g'), e)
    decreases Steps(g), 1, Group(k, a, tail), 0
  {
    FirstTree(R, e, g);
    RestRoots(if g.Leaf? then g.t else g.s, Roots(g.rest), body, suffix);
    RepGroupRules(R, e, lo, k, a, body[0]);
    var f1 := ReadGroup(m, R0, R, e, asts, lo, k, a, body[0], g.kids);
    var f2;
    f2, g' := ReadItems(m, R0, R, e, asts, lo, tail, body[1..], suffix, g.rest);
    f := JoinRead(m, R0, R, asts, e, f1, f2, g, g');
    MatchSplit(k, a, tail, Roots(f1), Roots(f2));
  }

  lemma JoinRead(m: Metas, R0: Rules, R: Rules, asts: seq<Alts>, e: Sym, f1: Forest, f2: Forest, g: Forest, g': Forest)
    returns (f: Forest)
    requires EbnfValid(m, R0, asts, f1) && AllTerminal(R0, Yield(f1)) && EbnfValid(m, R0, asts, f2)
    requires AllTerminal(R0, Yield(f2))
    requires !g.Nil? && Erase(Yield(g), e) == Erase(Yield(f1), e) + Erase(Yield(g.rest), e)
    requires Erase(Yield(g.rest), e) == Erase(Yield(f2), e) + Erase(Yield(g'), e)
    ensures Roots(f) == Roots(f1) + Roots(f2) && EbnfValid(m, R0, asts, f) && AllTerminal(R0, Yield(f))
    ensures Erase(Yield(g), e) == Erase(Yield(f), e) + Erase(Yield(g'), e)
  {
    f := Append(f1, f2);
    var v, w, u := Erase(Yield(f1), e), Erase(Yield(f2), e), Erase(Yield(g'), e);
    ResultAppend(m, R0, asts, e, f1, v, f2, w);
    ConcatAssoc(v, w, u);
  }

  lemma RestRoots(x: Sym, rest: seq<Sym>, body: Rule, suffix: Rule)
    requires [x] + rest == body + suffix && body != []
    ensures x == body[0] && rest == body[1..] + suffix
  {
    assert x == ([x] + rest)[0] && rest == ([x] + rest)[1..];
  }

  lemma MatchSplit(k: Kind, a: Alts, tail: Items, v: seq<Sym>, w: seq<Sym>)
    requires MatchGroup(k, a, v) && MatchItems(tail, w)
    ensures MatchItems(Group(k, a, tail), v + w)
  {
    assert (v + w)[..|v|] == v && (v + w)[|v|..] == w;
  }

  lemma RepGroupRules(R: Rules, e: Sym, lo: nat, k: Kind, a: Alts, ns: Sym)
    requires RepGroup(R, e, lo, k, a, ns)
    ensures !Terminal(R, ns)
  {
  }

  /** The first tree of g, for a symbol of the old grammar. */
  lemma {:induction false} ReadSymbol(m: Metas, R0: Rules, R: Rules, e: Sym, asts: seq<Alts>, s: Sym, g: Forest)
    returns (f: Forest)
    requires Done(m, R0, R, e, asts) && s < |R0| && !m.IsMeta(s)
    requires !g.Nil? && Valid(R, g) && Roots(g)[0] == s && AllTerminal(R, Yield(g))
    ensures Roots(f) == [s] && EbnfValid(m, R0, asts, f) && AllTerminal(R0, Yield(f))
    ensures Erase(Yield(g), e) == Erase(Yield(f), e) + Erase(Yield(g.rest), e)
    decreases Steps(g), 0
  {
    FirstTree(R, e, g);
    OldSymbol(m, R0, R, e, asts, s);
    if g.Leaf? {
      f := Leaf(s, Nil);
      assert Roots(f) == [s] + Roots(Nil) == [s] && Yield(f) == [s] + Yield(Nil) == [s];
    } else {
      var k, _ := ReadAlts(m, R0, R, e, asts, |R0|, asts[s], R[s], [], g.kids);
      TreeParts(R0, s, k);
      f := Tree(s, k);
    }
  }

  lemma {:induction false} ReadGroup(m: Metas, R0: Rules, R: Rules, e: Sym, asts: seq<Alts>, lo: nat, k: Kind,
      a: Alts, ns: Sym, g: Forest)
    returns (f: Forest)
    requires Done(m, R0, R, e, asts) && RepGroup(R, e, lo, k, a, ns) && Plain(m, a) && AltsBelow(|R0|, a)
    requires Valid(R, g) && Roots(g) in R[ns] && AllTerminal(R, Yield(g))
    ensures MatchGroup(k, a, Roots(f)) && Result(m, R0, asts, e, f, Erase(Yield(g), e))
    decreases Steps(g), 1, a, 2
  {
    if k == Curly {
      f := ReadStar(m, R0, R, e, asts, lo, a, ns, g);
    } else if k == Square && Roots(g) == [e] {
      f := Nil;
      ReadEmpty(m, R0, R, e, asts, g);
    } else {
      var rows := if k == Paren then R[ns] else R[ns][1..];
      if k == Square { HeadTail(R[ns]); }
      var g';
      f, g' := ReadAlts(m, R0, R, e, asts, ns + 1, a, rows, [], g);
    }
  }

  /** The empty rule of an option or a repetition. */
  lemma ReadEmpty(m: Metas, R0: Rules, R: Rules, e: Sym, asts: seq<Alts>, g: Forest)
    requires Done(m, R0, R, e, asts) && Valid(R, g) && Roots(g) == [e]
    ensures Erase(Yield(g), e) == []
  {
    assert RulesOf(R, e) == [];
    var one := OneTree(R, g);
    assert g.Leaf? && g.t == e && g.rest.Nil?;
    assert Yield(g) == [e] + Yield(Nil) == [e];
    assert Erase([e], e) == [] + Erase([e][1..], e) == [];
  }

  lemma {:induction false} ReadStar(m: Metas, R0: Rules, R: Rules, e: Sym, asts: seq<Alts>, lo: nat, a: Alts, ns: Sym,
      g: Forest)
    returns (f: Forest)
    requires Done(m, R0, R, e, asts) && RepGroup(R, e, lo, Curly, a, ns) && Plain(m, a) && AltsBelow(|R0|, a)
    requires Valid(R, g) && Roots(g) in R[ns] && AllTerminal(R, Yield(g))
    ensures MatchStar(a, Roots(f)) && Result(m, R0, asts, e, f, Erase(Yield(g), e))
    decreases Steps(g), 1, a, 1
  {
    if Roots(g) == [e] {
      f := Nil;
      ReadEmpty(m, R0, R, e, asts, g);
    } else {
      HeadTail(R[ns]);
      var f1, g' := ReadAlts(m, R0, R, e, asts, ns + 1, a, R[ns][1..], [ns], g);
      RepGroupRules(R, e, lo, Curly, a, ns);
      OnlyTree(R, e, ns, g');
      var f2 := ReadStar(m, R0, R, e, asts, lo, a, ns, g'.kids);
      ResultAppend(m, R0, asts, e, f1, Erase(Yield(f1), e), f2, Erase(Yield(g'), e));
      f := Append(f1, f2);
      StarStep(a, Roots(f1), Roots(f2));
    }
  }

  /** The one tree of a nonterminal. */
  lemma OnlyTree(R: Rules, e: Sym, ns: Sym, g: Forest)
    requires Valid(R, g) && Roots(g) == [ns] && AllTerminal(R, Yield(g)) && !Terminal(R, ns)
    ensures g.Node? && Valid(R, g.kids) && Roots(g.kids) in RulesOf(R, ns) && AllTerminal(R, Yield(g.kids))
    ensures Steps(g.kids) < Steps(g)
    ensures Erase(Yield(g), e) == Erase(Yield(g.kids), e)
  {
    FirstTree(R, e, g);
    assert Roots(g)[0] == ns && Roots(g)[1..] == Roots(g.rest);
    assert Yield(g) == Yield(g.kids) + Yield(Nil) == Yield(g.kids);
  }

  lemma StarStep(a: Alts, v: seq<Sym>, w: seq<Sym>)
    requires MatchAlts(a, v) && MatchStar(a, w)
    ensures MatchStar(a, v + w)
  {
    if v == [] {
      assert v + w == w;
    } else {
      assert (v + w)[..|v|] == v && (v + w)[|v|..] == w;
    }
  }

  lemma {:induction false} ReadAlts(m: Metas, R0: Rules, R: Rules, e: Sym, asts: seq<Alts>, lo: nat, a: Alts,
      rows: seq<Rule>, suffix: Rule, g: Forest)
    returns (f: Forest, g': Forest)
    requires Done(m, R0, R, e, asts) && RepAlts(R, e, lo, a, rows, suffix) && Plain(m, a) && AltsBelow(|R0|, a)
    requires Valid(R, g) && Roots(g) in rows && AllTerminal(R, Yield(g))
    ensures MatchAlts(a, Roots(f)) && EbnfValid(m, R0, asts, f) && AllTerminal(R0, Yield(f))
    ensures Valid(R, g') && Roots(g') == suffix && AllTerminal(R, Yield(g')) && Steps(g') <= Steps(g)
    ensures Erase(Yield(g), e) == Erase(Yield(f), e) + Erase(Yield(g'), e)
    ensures suffix == [] ==> Erase(Yield(g), e) == Erase(Yield(f), e)
    decreases Steps(g), 1, a, 0
  {
    if Roots(g) == rows[0] {
      EndsStem(rows[0], suffix);
      f, g' := ReadItems(m, R0, R, e, asts, lo, a.items, Stem(rows[0], suffix), suffix, g);
    } else {
      HeadTail(rows);
      f, g' := ReadAlts(m, R0, R, e, asts, lo, a.more, rows[1..], suffix, g);
    }
    if suffix == [] { OnlyEmpty(g', e); }
  }

  lemma EndsStem(row: Rule, suffix: Rule)
    requires EndsWith(row, suffix)
    ensures Stem(row, suffix) + suffix == row
  {
  }

  lemma OnlyEmpty(g: Forest, e: Sym)
    requires Roots(g) == []
    ensures forall v :: v + Erase(Yield(g), e) == v
  {
    assert g.Nil?;
    forall v: seq<Sym> ensures v + Erase(Yield(g), e) == v { assert v + [] == v; }
  }

  // ----- the whole derivation -----

  lemma {:induction false} BuildForest(m: Metas, R0: Rules, R: Rules, e: Sym, asts: seq<Alts>, f: Forest)
    returns (h: Forest)
    requires Done(m, R0, R, e, asts) && EbnfValid(m, R0, asts, f)
    ensures Valid(R, h) && Roots(h) == Roots(f) && ReadsLike(R, e, f, h)
  {
    if f.Nil? {
      h := Nil;
    } else {
      var r := BuildForest(m, R0, R, e, asts, f.rest);
      var one := OneTree(R, f);
      if f.Leaf? {
        h := JoinBuild(R, e, one, Leaf(f.t, Nil), f.rest, r);
      } else {
        var k := BuildForest(m, R0, R, e, asts, f.kids);
        var t := BuildNode(m, R0, R, e, asts, f.s, f.kids, k);
        h := JoinBuild(R, e, one, t, f.rest, r);
      }
    }
  }

  lemma BuildNode(m: Metas, R0: Rules, R: Rules, e: Sym, asts: seq<Alts>, s: Sym, kids: Forest, k: Forest)
    returns (t: Forest)
    requires Done(m, R0, R, e, asts) && EbnfRule(m, R0, asts, s, Roots(k)) && Valid(R, k) && ReadsLike(R, e, kids, k)
    ensures Valid(R, t) && Roots(t) == [s] && ReadsLike(R, e, Node(s, kids, Nil), t)
  {
    OldSymbol(m, R0, R, e, asts, s);
    var h := BuildAlts(R, e, |R0|, asts[s], R[s], [], k, Nil);
    AppendParts(R, k, Nil);
    assert Yield(k) + Yield(Nil) == Yield(k);
    TreeParts(R, s, kids); TreeParts(R, s, h);
    t := Tree(s, h);
  }

  predicate OldForm(m: Metas, R0: Rules, alpha: seq<Sym>) {
    forall i :: 0 <= i < |alpha| ==> alpha[i] < |R0| && !m.IsMeta(alpha[i])
  }

  lemma {:induction false} ItemsOld(m: Metas, R0: Rules, i: Items, beta: seq<Sym>)
    requires PlainItems(m, i) && ItemsBelow(|R0|, i) && MatchItems(i, beta)
    ensures OldForm(m, R0, beta)
    decreases i, |beta|, 3
  {
    match i
    case End =>
    case Use(s, tail) =>
      ItemsOld(m, R0, tail, beta[1..]);
      assert beta == [s] + beta[1..];
    case Group(k, a, tail) =>
      var j :| 0 <= j <= |beta| && MatchGroup(k, a, beta[..j]) && MatchItems(tail, beta[j..]);
      if k == Curly { StarOld(m, R0, a, beta[..j]); } else if j > 0 || k == Paren { AltsOld(m, R0, a, beta[..j]); }
      ItemsOld(m, R0, tail, beta[j..]);
      assert beta == beta[..j] + beta[j..];
  }

  lemma {:induction false} StarOld(m: Metas, R0: Rules, a: Alts, beta: seq<Sym>)
    requires Plain(m, a) && AltsBelow(|R0|, a) && MatchStar(a, beta)
    ensures OldForm(m, R0, beta)
    decreases a, |beta|, 1
  {
    if beta != [] {
      var j :| 0 < j <= |beta| && MatchAlts(a, beta[..j]) && MatchStar(a, beta[j..]);
      AltsOld(m, R0, a, beta[..j]);
      StarOld(m, R0, a, beta[j..]);
      assert beta == beta[..j] + beta[j..];
    }
  }

  lemma {:induction false} AltsOld(m: Metas, R0: Rules, a: Alts, beta: seq<Sym>)
    requires Plain(m, a) && AltsBelow(|R0|, a) && MatchAlts(a, beta)
    ensures OldForm(m, R0, beta)
    decreases a, |beta|, 0
  {
    if MatchItems(a.items, beta) { ItemsOld(m, R0, a.items, beta); } else { AltsOld(m, R0, a.more, beta); }
  }

  lemma {:induction false} OldTerminals(m: Metas, R0: Rules, R: Rules, e: Sym, asts: seq<Alts>, f: Forest)
    requires Done(m, R0, R, e, asts) && EbnfValid(m, R0, asts, f) && OldForm(m, R0, Roots(f))
    requires AllTerminal(R0, Yield(f))
    ensures AllTerminal(R, Yield(f))
  {
    if !f.Nil? {
      var s := Roots(f)[0];
      var first := if f.Leaf? then [s] else Yield(f.kids);
      assert Yield(f) == first + Yield(f.rest);
      assert forall i :: 0 <= i < |Roots(f.rest)| ==> Roots(f.rest)[i] == Roots(f)[i + 1];
      TerminalTail(first, Yield(f.rest), R0); TerminalTail(first, Yield(f.rest), R);
      OldSymbol(m, R0, R, e, asts, s);
      OldTerminals(m, R0, R, e, asts, f.rest);
      if f.Node? {
        AltsOld(m, R0, asts[s], Roots(f.kids));
        OldTerminals(m, R0, R, e, asts, f.kids);
      } else {
        assert Terminal(R0, first[0]);
      }
    }
  }

  lemma {:induction false} ReadForest(m: Metas, R0: Rules, R: Rules, e: Sym, asts: seq<Alts>, g: Forest)
    returns (f: Forest)
    requires Done(m, R0, R, e, asts) && Valid(R, g) && OldForm(m, R0, Roots(g)) && AllTerminal(R, Yield(g))
    ensures Roots(f) == Roots(g) && Result(m, R0, asts, e, f, Erase(Yield(g), e))
  {
    if g.Nil? {
      f := Nil;
    } else {
      FirstTree(R, e, g);
      var s := Roots(g)[0];
      assert forall i :: 0 <= i < |Roots(g.rest)| ==> Roots(g.rest)[i] == Roots(g)[i + 1];
      var f1 := ReadSymbol(m, R0, R, e, asts, s, g);
      var f2 := ReadForest(m, R0, R, e, asts, g.rest);
      ResultAppend(m, R0, asts, e, f1, Erase(Yield(f1), e), f2, Erase(Yield(f2), e));
      f := Append(f1, f2);
    }
  }

  /** Every sentential form of the old grammar generates the same strings as before: the EBNF reading of
      the old rules and the plain reading of the new ones agree. */
  lemma EbnfKept(m: Metas, R0: Rules, R: Rules, e: Sym, asts: seq<Alts>, alpha: seq<Sym>, w: seq<Sym>)
    requires Closed(R0) && e < |R0| && Terminal(R0, e) && !m.IsMeta(e)
    requires Reading(m, R0, asts) && Deebnfed(m, R0, R, Some(e)) && OldForm(m, R0, alpha)
    ensures EbnfReads(m, R0, asts, e, alpha, w) <==> Reads(R, e, alpha, w)
  {
    if EbnfReads(m, R0, asts, e, alpha, w) {
      var f :| EbnfDerivation(m, R0, asts, f, e, alpha, w);
      var h := BuildForest(m, R0, R, e, asts, f);
      OldTerminals(m, R0, R, e, asts, f);
      assert Derivation(R, h, alpha, Yield(h)) && Sentence(R, alpha, Yield(h));
    }
    if Reads(R, e, alpha, w) {
      var u :| Sentence(R, alpha, u) && Erase(u, e) == w;
      var g :| Derivation(R, g, alpha, u);
      var f := ReadForest(m, R0, R, e, asts, g);
      assert EbnfDerivation(m, R0, asts, f, e, alpha, w);
    }
  }
}
