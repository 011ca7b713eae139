/** The in-memory grammar of doc/v1.0/qtools/grammar.h and the derivations it allows.

    Symbols are numbered by their place in the symbol list.  A rule is the sequence of symbols of
    its body, and each symbol owns a sequence of rules; a symbol without rules is a terminal.

    A derivation is a `Forest`: a row of derivation trees.  Leaves may carry any symbol, so the
    yield of a forest is a sentential form derived from its roots; it is a sentence when all the
    leaves are terminals.  A forest is stored first child / next sibling, which makes every
    property of derivations provable by one plain structural induction. */
module Grammars {

  import opened Wrappers

  type Sym = nat
  type Rule = seq<Sym>
  type Rules = seq<seq<Rule>>

  /** The marks of `enum STYPE`.  deempty.c reuses TOUCHED under the name NONEMPTY. */
  datatype State = IsEmpty | CanBeEmpty | Touched | Untouched

  /** The global variables of the tools: the symbol list with the lists hanging from each symbol,
      the distinguished symbol and the empty symbol. */
  class Grammar {
    var rules: Rules                // symbol.data: the bodies of its productions
    var state: seq<State>           // symbol.state
    var pstate: seq<seq<State>>     // production.state, parallel to `rules`
    var starter: seq<seq<Sym>>      // symbol.starter
    var follows: seq<seq<Sym>>      // symbol.follows
    var head: Option<Sym>           // the distinguished symbol
    var emptypt: Option<Sym>        // the empty symbol
    var changed: bool               // the static flag `change`/`changed` of the tools
    var errors: nat                 // how many messages were written to the error stream

    constructor (rules: Rules, head: Option<Sym>, emptypt: Option<Sym>)
      ensures this.rules == rules && this.head == head && this.emptypt == emptypt
      ensures |state| == |pstate| == |starter| == |follows| == |rules|
      ensures forall s :: 0 <= s < |rules| ==> |pstate[s]| == |rules[s]|
      ensures forall s :: 0 <= s < |rules| ==> state[s] == Untouched && starter[s] == [] && follows[s] == []
    {
      this.rules, this.head, this.emptypt := rules, head, emptypt;
      state := seq(|rules|, _ => Untouched);
      pstate := seq(|rules|, s requires 0 <= s < |rules| => seq(|rules[s]|, _ => Untouched));
      starter, follows := seq(|rules|, _ => []), seq(|rules|, _ => []);
      changed, errors := false, 0;
    }
  }

  function RulesOf(R: Rules, s: Sym): seq<Rule> {
    if s < |R| then R[s] else []
  }

  predicate Terminal(R: Rules, s: Sym) {
    RulesOf(R, s) == []
  }

  predicate AllTerminal(R: Rules, w: seq<Sym>) {
    forall i :: 0 <= i < |w| ==> Terminal(R, w[i])
  }

  lemma TerminalTail(v: seq<Sym>, w: seq<Sym>, R: Rules)
    ensures AllTerminal(R, v + w) <==> AllTerminal(R, v) && AllTerminal(R, w)
  {
    if AllTerminal(R, v + w) {
      forall i | 0 <= i < |v| ensures Terminal(R, v[i]) { assert (v + w)[i] == v[i]; }
      forall i | 0 <= i < |w| ensures Terminal(R, w[i]) { assert (v + w)[|v| + i] == w[i]; }
    }
  }

  /** Every element of every rule is a symbol of the list. */
  predicate Closed(R: Rules) {
    forall s, k, i :: 0 <= s < |R| && 0 <= k < |R[s]| && 0 <= i < |R[s][k]| ==> R[s][k][i] < |R|
  }

  // ----- derivation forests -----

  datatype Forest =
    | Nil
    | Leaf(t: Sym, rest: Forest)
    | Node(s: Sym, kids: Forest, rest: Forest)

  ghost function Roots(f: Forest): seq<Sym> {
    match f
    case Nil => []
    case Leaf(t, rest) => [t] + Roots(rest)
    case Node(s, _, rest) => [s] + Roots(rest)
  }

  ghost function Yield(f: Forest): seq<Sym> {
    match f
    case Nil => []
    case Leaf(t, rest) => [t] + Yield(rest)
    case Node(_, kids, rest) => Yield(kids) + Yield(rest)
  }

  /** The number of rule applications. */
  ghost function Steps(f: Forest): nat {
    match f
    case Nil => 0
    case Leaf(_, rest) => Steps(rest)
    case Node(_, kids, rest) => 1 + Steps(kids) + Steps(rest)
  }

  ghost predicate Valid(R: Rules, f: Forest) {
    match f
    case Nil => true
    case Leaf(_, rest) => Valid(R, rest)
    case Node(s, kids, rest) => Roots(kids) in RulesOf(R, s) && Valid(R, kids) && Valid(R, rest)
  }

  /** alpha derives beta in zero or more steps. */
  ghost predicate Derives(R: Rules, alpha: seq<Sym>, beta: seq<Sym>) {
    exists f :: Derivation(R, f, alpha, beta)
  }

  ghost predicate Derivation(R: Rules, f: Forest, alpha: seq<Sym>, beta: seq<Sym>) {
    Valid(R, f) && Roots(f) == alpha && Yield(f) == beta
  }

  /** The language of alpha: the strings of terminals it derives. */
  ghost predicate Sentence(R: Rules, alpha: seq<Sym>, w: seq<Sym>) {
    Derives(R, alpha, w) && AllTerminal(R, w)
  }

  ghost predicate SameLanguage(R: Rules, R': Rules) {
    forall alpha, w :: Sentence(R, alpha, w) <==> Sentence(R', alpha, w)
  }

  // ----- forest surgery -----

  ghost function Append(f: Forest, g: Forest): Forest {
    match f
    case Nil => g
    case Leaf(t, rest) => Leaf(t, Append(rest, g))
    case Node(s, kids, rest) => Node(s, kids, Append(rest, g))
  }

  lemma {:induction false} AppendParts(R: Rules, f: Forest, g: Forest)
    ensures Roots(Append(f, g)) == Roots(f) + Roots(g)
    ensures Yield(Append(f, g)) == Yield(f) + Yield(g)
    ensures Steps(Append(f, g)) == Steps(f) + Steps(g)
    ensures Valid(R, Append(f, g)) <==> Valid(R, f) && Valid(R, g)
  {
    match f
    case Nil =>
      assert [] + Roots(g) == Roots(g) && [] + Yield(g) == Yield(g);
    case Leaf(t, rest) =>
      AppendParts(R, rest, g);
      ConcatAssoc([t], Roots(rest), Roots(g));
      ConcatAssoc([t], Yield(rest), Yield(g));
    case Node(s, kids, rest) =>
      AppendParts(R, rest, g);
      ConcatAssoc([s], Roots(rest), Roots(g));
      ConcatAssoc(Yield(kids), Yield(rest), Yield(g));
  }

  /** A row of trees can be cut after any number of roots. */
  lemma {:induction false} Cut(R: Rules, f: Forest, n: nat) returns (a: Forest, b: Forest)
    requires n <= |Roots(f)|
    ensures Append(a, b) == f && Roots(a) == Roots(f)[..n] && Roots(b) == Roots(f)[n..]
    ensures Yield(f) == Yield(a) + Yield(b) && Steps(f) == Steps(a) + Steps(b)
    ensures Valid(R, f) <==> Valid(R, a) && Valid(R, b)
  {
    if n == 0 {
      a, b := Nil, f;
    } else {
      match f
      case Leaf(t, rest) =>
        a, b := Cut(R, rest, n - 1);
        a := Leaf(t, a);
      case Node(s, kids, rest) =>
        a, b := Cut(R, rest, n - 1);
        a := Node(s, kids, a);
    }
    AppendParts(R, a, b);
    assert Roots(f)[..n] + Roots(f)[n..] == Roots(f);
  }

  /** The forest of bare leaves: the derivation of length zero. */
  ghost function Bare(alpha: seq<Sym>): Forest {
    if alpha == [] then Nil else Leaf(alpha[0], Bare(alpha[1..]))
  }

  lemma {:induction false} BareParts(R: Rules, alpha: seq<Sym>)
    ensures Derivation(R, Bare(alpha), alpha, alpha) && Steps(Bare(alpha)) == 0
  {
    if alpha != [] { BareParts(R, alpha[1..]); }
  }

  lemma Regroup<T>(u: seq<T>, a: seq<T>, m: seq<T>, b: seq<T>, v: seq<T>)
    ensures u + (a + m + b) + v == (u + a) + m + (b + v)
  {
  }

  /** Derivations compose side by side ... */
  lemma DerivesConcat(R: Rules, a: seq<Sym>, b: seq<Sym>, v: seq<Sym>, w: seq<Sym>)
    requires Derives(R, a, v) && Derives(R, b, w)
    ensures Derives(R, a + b, v + w)
  {
    var f :| Derivation(R, f, a, v);
    var g :| Derivation(R, g, b, w);
    AppendParts(R, f, g);
    assert Derivation(R, Append(f, g), a + b, v + w);
  }

  /** ... by one rule on top ... */
  lemma DerivesByRule(R: Rules, s: Sym, body: Rule, w: seq<Sym>)
    requires body in RulesOf(R, s) && Derives(R, body, w)
    ensures Derives(R, [s], w)
  {
    var f :| Derivation(R, f, body, w);
    var t := Node(s, f, Nil);
    assert Roots(t) == [s] + Roots(Nil) == [s];
    assert Yield(t) == Yield(f) + Yield(Nil) == w;
    assert Derivation(R, t, [s], w);
  }

  /** ... and end to end. */
  lemma {:induction false} DerivesTrans(R: Rules, a: seq<Sym>, b: seq<Sym>, c: seq<Sym>)
    requires Derives(R, a, b) && Derives(R, b, c)
    ensures Derives(R, a, c)
  {
    var f :| Derivation(R, f, a, b);
    var g :| Derivation(R, g, b, c);
    var h := Graft(R, f, g);
    assert Derivation(R, h, a, c);
  }

  /** Hangs the trees of g below the leaves of f. */
  lemma {:induction false} Graft(R: Rules, f: Forest, g: Forest) returns (h: Forest)
    requires Valid(R, f) && Valid(R, g) && Roots(g) == Yield(f)
    ensures Valid(R, h) && Roots(h) == Roots(f) && Yield(h) == Yield(g)
  {
    match f
    case Nil =>
      assert g.Nil?;
      h := Nil;
    case Leaf(t, rest) =>
      assert Roots(g)[1..] == Roots(g.rest) && ([t] + Yield(rest))[1..] == Yield(rest);
      var h' := Graft(R, rest, g.rest);
      h := if g.Leaf? then Leaf(t, h') else Node(t, g.kids, h');
    case Node(s, kids, rest) =>
      var n := |Yield(kids)|;
      assert (Yield(kids) + Yield(rest))[..n] == Yield(kids) && (Yield(kids) + Yield(rest))[n..] == Yield(rest);
      var a, b := Cut(R, g, n);
      var k := Graft(R, kids, a);
      var r := Graft(R, rest, b);
      h := Node(s, k, r);
      assert Yield(h) == Yield(a) + Yield(b);
  }

  /** Replaces one symbol of a derived sentential form by the body of one of its rules. */
  lemma DerivesReplace(R: Rules, alpha: seq<Sym>, u: seq<Sym>, s: Sym, v: seq<Sym>, w: seq<Sym>)
    requires Derives(R, alpha, u + [s] + v) && Derives(R, [s], w)
    ensures Derives(R, alpha, u + w + v)
  {
    DerivesRefl(R, u); DerivesRefl(R, v);
    DerivesConcat(R, u, [s], u, w);
    DerivesConcat(R, u + [s], v, u + w, v);
    DerivesTrans(R, alpha, u + [s] + v, u + w + v);
  }

  lemma DerivesRefl(R: Rules, alpha: seq<Sym>)
    ensures Derives(R, alpha, alpha)
  {
    BareParts(R, alpha);
    assert Derivation(R, Bare(alpha), alpha, alpha);
  }

  /** Only the set of rules of each symbol matters to a derivation, not order or repetition. */
  lemma {:induction false} ValidSameRules(R: Rules, R': Rules, f: Forest)
    requires forall s: Sym, b :: b in RulesOf(R, s) ==> b in RulesOf(R', s)
    requires Valid(R, f)
    ensures Valid(R', f)
  {
    match f
    case Nil =>
    case Leaf(_, rest) => ValidSameRules(R, R', rest);
    case Node(_, kids, rest) => ValidSameRules(R, R', kids); ValidSameRules(R, R', rest);
  }

  // ----- the empty symbol -----

  /** A string read with the empty symbol standing for nothing. */
  ghost function Erase(w: seq<Sym>, e: Sym): seq<Sym> {
    if w == [] then [] else (if w[0] == e then [] else [w[0]]) + Erase(w[1..], e)
  }

  lemma {:induction false} EraseConcat(v: seq<Sym>, w: seq<Sym>, e: Sym)
    ensures Erase(v + w, e) == Erase(v, e) + Erase(w, e)
  {
    if v == [] {
      assert v + w == w;
    } else {
      assert (v + w)[1..] == v[1..] + w;
      EraseConcat(v[1..], w, e);
    }
  }

  /** The language of alpha when e denotes the empty string. */
  ghost predicate Reads(R: Rules, e: Sym, alpha: seq<Sym>, w: seq<Sym>) {
    exists u :: Sentence(R, alpha, u) && Erase(u, e) == w
  }
}
