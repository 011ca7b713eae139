/** deempty.c: what the rewritten grammar generates, and the interface `deempty`. */
module DeemptyMeaning {
  import opened Wrappers
  import opened Grammars
  import opened Deempting
  import opened Marks
  import opened Cleaning

  // ----- nullable symbols and the marks -----

  /** s derives the empty string, e standing for it. */
  ghost predicate Nullable(R: Rules, e: Sym, s: Sym) {
    Reads(R, e, [s], [])
  }

  ghost predicate NullForest(R: Rules, e: Sym, f: Forest) {
    Valid(R, f) && AllTerminal(R, Yield(f)) && Erase(Yield(f), e) == []
  }

  lemma {:induction false} NullRoots(R: Rules, e: Sym, f: Forest, i: nat)
    requires NullForest(R, e, f) && i < |Roots(f)|
    ensures Nullable(R, e, Roots(f)[i])
  {
    var a, b := Cut(R, f, i);
    var c, d := Cut(R, b, 1);
    assert Roots(c) == [Roots(f)[i]];
    TerminalTail(Yield(a), Yield(b), R);
    TerminalTail(Yield(c), Yield(d), R);
    EraseConcat(Yield(a), Yield(b), e);
    EraseConcat(Yield(c), Yield(d), e);
    assert Derivation(R, c, [Roots(f)[i]], Yield(c));
    assert Sentence(R, [Roots(f)[i]], Yield(c));
  }

  /** A forest with one root is one tree. */
  lemma OneTree(R: Rules, f: Forest, s: Sym)
    requires Roots(f) == [s]
    ensures f == Leaf(s, Nil) || (f.Node? && f.s == s && f.rest == Nil)
    ensures f.Leaf? ==> Yield(f) == [s]
    ensures f.Node? ==>
      Yield(f) == Yield(f.kids) && (Valid(R, f) <==> Roots(f.kids) in RulesOf(R, s) && Valid(R, f.kids))
  {
    assert Roots(f)[0] == s && Roots(f)[1..] == [];
    assert Roots(f.rest) == Roots(f)[1..];
    assert f.rest.Nil?;
    if f.Node? { assert Yield(f) == Yield(f.kids) + []; }
  }

  /** A nullable symbol is the empty symbol or has a rule of nullable symbols. */
  lemma NullableSupported(R: Rules, e: Sym, s: Sym) returns (body: Rule)
    requires Nullable(R, e, s) && s != e
    ensures body in RulesOf(R, s) && forall i :: 0 <= i < |body| ==> Nullable(R, e, body[i])
  {
    var u :| Sentence(R, [s], u) && Erase(u, e) == [];
    var f :| Derivation(R, f, [s], u);
    OneTree(R, f, s);
    assert Erase([s], e) == [s] + Erase([], e);
    match f
    case Leaf(t, _) =>
      assert false;
    case Node(_, kids, _) =>
      body := Roots(kids);
      forall i | 0 <= i < |body| ensures Nullable(R, e, body[i]) {
        NullRoots(R, e, kids, i);
      }
  }

  /** A symbol that derives the empty string is never marked NONEMPTY. */
  lemma NullableUnmarked(R: Rules, e: Sym, st: seq<State>, ps: seq<seq<State>>, s: Sym)
    requires Marked(R, e, st, ps) && e < |R| && R[e] == [] && Nullable(R, e, s) && s < |R|
    ensures st[s] != NON_EMPTY
  {
    NullablesSupport(R, e);
    SupportedAvoids(R, e, st, ps, Nullables(R, e));
    assert s in Nullables(R, e);
  }

  lemma NullablesSupport(R: Rules, e: Sym)
    requires e < |R|
    ensures SelfSupporting(R, e, Nullables(R, e))
  {
    var T := Nullables(R, e);
    forall t | t in T && t != e ensures SupportedBy(R, t, T) { NullableWithin(R, e, t, T); }
  }

  lemma NullableListed(R: Rules, e: Sym, s: Sym)
    requires Nullable(R, e, s) && e < |R|
    ensures s < |R|
  {
    if s >= |R| { var body := NullableSupported(R, e, s); }
  }

  /** A phantom: symbols that do not derive the empty string, each with a rule made of phantoms and of
      symbols that do.  Nothing but the phantoms themselves speaks for their being empty. */
  ghost predicate Phantom(R: Rules, e: Sym, P: set<Sym>) {
    P != {} && forall s {:trigger Haunted(R, e, P, s)} :: s in P ==> Haunted(R, e, P, s)
  }

  ghost predicate Haunted(R: Rules, e: Sym, P: set<Sym>, s: Sym) {
    s < |R| && !Nullable(R, e, s) && exists k :: 0 <= k < |R[s]| && PhantomRule(R, e, P, R[s][k])
  }

  ghost predicate PhantomRule(R: Rules, e: Sym, P: set<Sym>, body: Rule) {
    forall i :: 0 <= i < |body| ==> body[i] in P || Nullable(R, e, body[i])
  }

  /** The marks are exact: not NONEMPTY means derives the empty string. */
  ghost predicate Exact(R: Rules, e: Sym, st: seq<State>) {
    |st| == |R| && forall s: Sym :: s < |R| ==> (st[s] != NON_EMPTY <==> Nullable(R, e, s))
  }

  ghost function Nullables(R: Rules, e: Sym): set<Sym> {
    set t | 0 <= t < |R| && Nullable(R, e, t)
  }

  /** Marks that go too far leave a phantom behind ... */
  lemma InexactHasPhantom(R: Rules, e: Sym, st: seq<State>, ps: seq<seq<State>>, s0: Sym)
    requires Marked(R, e, st, ps) && Closed(R) && e < |R| && R[e] == []
    requires s0 < |R| && st[s0] != NON_EMPTY && !Nullable(R, e, s0)
    ensures Phantom(R, e, Unmarked(st) - Nullables(R, e))
  {
    UnmarkedSelfSupporting(R, e, st, ps);
    EmptyNullable(R, e);
    var U := Unmarked(st);
    var P := U - Nullables(R, e);
    assert s0 in P;
    forall s | s in P ensures Haunted(R, e, P, s) {
      assert SupportedBy(R, s, U);
      var k :| 0 <= k < |RulesOf(R, s)| && Within(RulesOf(R, s)[k], U);
      assert PhantomRule(R, e, P, R[s][k]);
    }
  }

  /** ... and a phantom drags itself, with the nullable symbols, below NONEMPTY. */
  lemma PhantomUnmarked(R: Rules, e: Sym, st: seq<State>, ps: seq<seq<State>>, P: set<Sym>)
    requires Marked(R, e, st, ps) && Closed(R) && e < |R| && R[e] == [] && Phantom(R, e, P)
    ensures P <= Unmarked(st)
  {
    UnmarkedSelfSupporting(R, e, st, ps);
    var T := P + Nullables(R, e);
    forall t | t in T ensures t < |R| && (t == e || SupportedBy(R, t, T)) {
      if t in P {
        assert Haunted(R, e, P, t);
        var k :| 0 <= k < |R[t]| && PhantomRule(R, e, P, R[t][k]);
        forall i | 0 <= i < |R[t][k]| ensures R[t][k][i] in T { assert R[t][k][i] < |R|; }
        assert Within(RulesOf(R, t)[k], T);
      } else if t != e {
        NullableWithin(R, e, t, T);
      }
    }
    assert SelfSupporting(R, e, T);
  }

  lemma NullableWithin(R: Rules, e: Sym, t: Sym, T: set<Sym>)
    requires Nullable(R, e, t) && t != e && e < |R| && Nullables(R, e) <= T
    ensures t < |R| && SupportedBy(R, t, T)
  {
    var body := NullableSupported(R, e, t);
    forall i | 0 <= i < |body| ensures body[i] in T { NullableListed(R, e, body[i]); }
    var k :| 0 <= k < |RulesOf(R, t)| && RulesOf(R, t)[k] == body;
    assert Within(RulesOf(R, t)[k], T);
  }

  lemma ExactWithoutPhantoms(R: Rules, e: Sym, st: seq<State>, ps: seq<seq<State>>)
    requires Marked(R, e, st, ps) && Closed(R) && e < |R| && R[e] == []
    ensures Exact(R, e, st) <==> !exists P :: Phantom(R, e, P)
  {
    forall s: Sym | s < |R| && Nullable(R, e, s) ensures st[s] != NON_EMPTY { NullableUnmarked(R, e, st, ps, s); }
    if !Exact(R, e, st) {
      var s0: Sym :| s0 < |R| && st[s0] != NON_EMPTY && !Nullable(R, e, s0);
      InexactHasPhantom(R, e, st, ps, s0);
    }
    if P :| Phantom(R, e, P) {
      PhantomUnmarked(R, e, st, ps, P);
      var s :| s in P;
      assert Haunted(R, e, P, s) && s in Unmarked(st);
    }
  }

  lemma EmptyNullable(R: Rules, e: Sym)
    requires Terminal(R, e)
    ensures Nullable(R, e, e)
  {
    DerivesRefl(R, [e]);
    assert Sentence(R, [e], [e]);
    assert Erase([e], e) == [] + Erase([], e) == [];
  }

  // ----- languages -----

  /** The rules after deempty, head's restored empty rule included. */
  ghost predicate Rewritten(R: Rules, R': Rules, e: Sym, st: seq<State>, h: Sym) {
    && |R| == |R'| == |st|
    && forall s {:trigger R'[s]} :: 0 <= s < |R| ==>
      if R[s] != [] && s == h && st[s] == CanBeEmpty then
        R'[s] != [] && R'[s][0] == [e] && RowDone(st, st[s], R[s], R'[s][1..])
      else RowDone(st, st[s], R[s], R'[s])
  }

  /** What cleanempty, called for nonterminals only, makes of the rules of a symbol with mark m. */
  ghost predicate RowDone(st: seq<State>, m: State, src: seq<Rule>, row: seq<Rule>) {
    if src == [] || m == IsEmpty then row == src else Cleaned(st, src, row)
  }

  /** Where a rule of the new grammar comes from. */
  lemma NewRule(R: Rules, R': Rules, e: Sym, st: seq<State>, h: Sym, s: Sym, body: Rule)
    requires Rewritten(R, R', e, st, h) && body in RulesOf(R', s)
    ensures s < |R| && R[s] != []
    ensures (st[s] == IsEmpty && body in R[s]) || (s == h && st[s] == CanBeEmpty && body == [e])
      || (st[s] != IsEmpty && FromSource(st, R[s], body))
  {
    if s == h && st[s] == CanBeEmpty && R[s] != [] {
      assert R'[s] == [[e]] + R'[s][1..];
    }
  }

  lemma SameTerminals(R: Rules, R': Rules, e: Sym, st: seq<State>, h: Sym, w: seq<Sym>)
    requires Rewritten(R, R', e, st, h)
    ensures AllTerminal(R, w) <==> AllTerminal(R', w)
  {
    forall i | 0 <= i < |w| ensures Terminal(R, w[i]) <==> Terminal(R', w[i]) {
      if w[i] < |R| && R[w[i]] != [] { assert R'[w[i]] != []; }
    }
  }

  /** A derivation of R from alpha, its empty subtrees pruned, is a derivation of R' from a variant of
      alpha. */
  lemma {:induction false} Prune(R: Rules, R': Rules, e: Sym, st: seq<State>, ps: seq<seq<State>>, h: Sym, f: Forest)
    returns (f': Forest)
    requires Marked(R, e, st, ps) && Closed(R) && e < |R| && R[e] == [] && Rewritten(R, R', e, st, h)
    requires Valid(R, f) && AllTerminal(R, Yield(f)) && forall i :: 0 <= i < |Roots(f)| ==> Roots(f)[i] < |R|
    ensures Valid(R', f') && Variant(st, Roots(f), Roots(f')) && Yield(f') == Erase(Yield(f), e)
    ensures Yield(f') == [] ==> f' == Nil
  {
    match f
    case Nil => f' := Nil;
    case Leaf(t, rest) =>
      assert Roots(f)[1..] == Roots(rest);
      TerminalTail([t], Yield(rest), R);
      assert AllTerminal(R, [t]) && [t][0] == t;
      assert Roots(f)[0] == t < |R|;
      f' := Prune(R, R', e, st, ps, h, rest);
      if t != e { f' := Leaf(t, f'); }
    case Node(s, kids, rest) =>
      assert Roots(f)[1..] == Roots(rest);
      TerminalTail(Yield(kids), Yield(rest), R);
      EraseConcat(Yield(kids), Yield(rest), e);
      forall i | 0 <= i < |Roots(kids)| ensures Roots(kids)[i] < |R| {
        var k :| 0 <= k < |R[s]| && R[s][k] == Roots(kids);
        assert R[s][k][i] < |R|;
      }
      var r := Prune(R, R', e, st, ps, h, rest);
      var ks := Prune(R, R', e, st, ps, h, kids);
      if Yield(ks) == [] {
        NullNode(R, e, st, ps, s, kids);
        f' := r;
      } else {
        PrunedRule(R, R', e, st, ps, h, s, Roots(kids), Roots(ks));
        f' := Node(s, ks, r);
      }
  }

  lemma NullNode(R: Rules, e: Sym, st: seq<State>, ps: seq<seq<State>>, s: Sym, kids: Forest)
    requires Marked(R, e, st, ps) && e < |R| && R[e] == []
    requires Roots(kids) in RulesOf(R, s) && Valid(R, kids) && AllTerminal(R, Yield(kids))
    requires Erase(Yield(kids), e) == []
    ensures st[s] != NON_EMPTY
  {
    assert Derivation(R, kids, Roots(kids), Yield(kids));
    DerivesByRule(R, s, Roots(kids), Yield(kids));
    assert Sentence(R, [s], Yield(kids));
    NullableUnmarked(R, e, st, ps, s);
  }

  /** A non-null variant of an old rule is a new rule. */
  lemma PrunedRule(R: Rules, R': Rules, e: Sym, st: seq<State>, ps: seq<seq<State>>, h: Sym, s: Sym, body: Rule,
      q: Rule)
    requires Marked(R, e, st, ps) && Rewritten(R, R', e, st, h) && body in RulesOf(R, s)
    requires q != [] && Variant(st, body, q)
    ensures st[s] != IsEmpty && q in RulesOf(R', s)
  {
    var k :| 0 <= k < |R[s]| && R[s][k] == body;
    if st[s] == IsEmpty {
      assert ps[s][k] == IsEmpty;
      EmptyVariant(st, body, q);
    } else {
      assert FromSource(st, R[s], q);
      if s == h && st[s] == CanBeEmpty {
        assert q in R'[s][1..];
      }
    }
  }

  /** Two rows of complete trees side by side. */
  lemma SideBySide(R: Rules, e: Sym, a: Forest, b: Forest)
    ensures Valid(R, a) && Valid(R, b) ==> Valid(R, Append(a, b))
    ensures AllTerminal(R, Yield(a)) && AllTerminal(R, Yield(b)) ==> AllTerminal(R, Yield(Append(a, b)))
    ensures Roots(Append(a, b)) == Roots(a) + Roots(b)
    ensures Erase(Yield(Append(a, b)), e) == Erase(Yield(a), e) + Erase(Yield(b), e)
  {
    AppendParts(R, a, b);
    TerminalTail(Yield(a), Yield(b), R);
    EraseConcat(Yield(a), Yield(b), e);
  }

  /** A tree that reads as the empty string. */
  lemma NullTree(R: Rules, e: Sym, x: Sym) returns (t: Forest)
    requires Nullable(R, e, x)
    ensures Valid(R, t) && Roots(t) == [x] && AllTerminal(R, Yield(t)) && Erase(Yield(t), e) == []
  {
    var u :| Sentence(R, [x], u) && Erase(u, e) == [];
    t :| Derivation(R, t, [x], u);
  }

  /** A row of trees of R whose roots q are a variant of alpha grows into one with roots alpha. */
  lemma {:induction false} Regrow(R: Rules, e: Sym, st: seq<State>, alpha: seq<Sym>, f: Forest) returns (f': Forest)
    requires Exact(R, e, st) && Valid(R, f) && AllTerminal(R, Yield(f)) && Variant(st, alpha, Roots(f))
    ensures Valid(R, f') && AllTerminal(R, Yield(f')) && Roots(f') == alpha && Erase(Yield(f'), e) == Erase(Yield(f), e)
  {
    if alpha == [] {
      f' := f;
    } else {
      HeadTail(alpha);
      var a, b, r;
      if MarkOf(st, alpha[0]) != NON_EMPTY && Variant(st, alpha[1..], Roots(f)) {
        a := NullTree(R, e, alpha[0]);
        b := f;
        assert [] + Erase(Yield(b), e) == Erase(Yield(b), e);
      } else {
        a, b := Cut(R, f, 1);
        TerminalTail(Yield(a), Yield(b), R);
        EraseConcat(Yield(a), Yield(b), e);
      }
      r := Regrow(R, e, st, alpha[1..], b);
      SideBySide(R, e, a, r);
      f' := Append(a, r);
    }
  }

  /** With exact marks a derivation of R' is one of R, up to occurrences of the empty symbol. */
  lemma {:induction false} Restore(R: Rules, R': Rules, e: Sym, st: seq<State>, h: Sym, f: Forest) returns (f': Forest)
    requires Exact(R, e, st) && e < |R| && R[e] == [] && Rewritten(R, R', e, st, h)
    requires Valid(R', f) && AllTerminal(R, Yield(f))
    ensures Valid(R, f') && AllTerminal(R, Yield(f')) && Roots(f') == Roots(f)
    ensures Erase(Yield(f'), e) == Erase(Yield(f), e)
  {
    match f
    case Nil => f' := Nil;
    case Leaf(t, rest) =>
      TerminalTail([t], Yield(rest), R);
      var r := Restore(R, R', e, st, h, rest);
      TerminalTail([t], Yield(r), R);
      f' := Leaf(t, r);
    case Node(s, kids, rest) =>
      TerminalTail(Yield(kids), Yield(rest), R);
      EraseConcat(Yield(kids), Yield(rest), e);
      var r := Restore(R, R', e, st, h, rest);
      var ks := Restore(R, R', e, st, h, kids);
      NewRule(R, R', e, st, h, s, Roots(kids));
      var t := RestoreTree(R, e, st, h, s, ks);
      AppendParts(R, t, r);
      TerminalTail(Yield(t), Yield(r), R);
      EraseConcat(Yield(t), Yield(r), e);
      f' := Append(t, r);
  }

  /** One tree for s whose children spell a rule of the new grammar. */
  lemma RestoreTree(R: Rules, e: Sym, st: seq<State>, h: Sym, s: Sym, ks: Forest) returns (t: Forest)
    requires Exact(R, e, st) && s < |R| && e < |R| && R[e] == []
    requires Valid(R, ks) && AllTerminal(R, Yield(ks))
    requires Roots(ks) in R[s] || (st[s] != NON_EMPTY && Roots(ks) == [e]) || FromSource(st, R[s], Roots(ks))
    ensures Valid(R, t) && AllTerminal(R, Yield(t)) && Roots(t) == [s] && Erase(Yield(t), e) == Erase(Yield(ks), e)
  {
    if Roots(ks) in R[s] {
      t := Node(s, ks, Nil);
      OneTree(R, t, s);
    } else if FromSource(st, R[s], Roots(ks)) {
      var r :| r in R[s] && Variant(st, r, Roots(ks));
      var k := Regrow(R, e, st, r, ks);
      t := Node(s, k, Nil);
      OneTree(R, t, s);
    } else {
      assert Nullable(R, e, s);
      var u :| Sentence(R, [s], u) && Erase(u, e) == [];
      t :| Derivation(R, t, [s], u);
      OneTree(R, ks, e);
      assert RulesOf(R, e) == [];
      assert Erase([e], e) == [] + Erase([], e);
    }
  }

  /** What deempty promises: new rules and marks together describe the old languages.  A symbol keeps its
      non-empty strings, and derived the empty string exactly when it is not marked NONEMPTY. */
  ghost predicate LanguageKept(R: Rules, R': Rules, e: Sym, st: seq<State>) {
    |st| == |R| && forall s: Sym, w | s < |R| ::
      Reads(R, e, [s], w) <==> Reads(R', e, [s], w) || (w == [] && st[s] != NON_EMPTY)
  }

  /** The non-empty strings survive, phantoms or not. */
  lemma StringsSurvive(R: Rules, R': Rules, e: Sym, st: seq<State>, ps: seq<seq<State>>, h: Sym, s: Sym, w: seq<Sym>)
    requires Marked(R, e, st, ps) && Closed(R) && e < |R| && R[e] == [] && Rewritten(R, R', e, st, h) && s < |R|
    requires Reads(R, e, [s], w) && w != []
    ensures Reads(R', e, [s], w)
  {
    var u :| Sentence(R, [s], u) && Erase(u, e) == w;
    var f :| Derivation(R, f, [s], u);
    var f' := Prune(R, R', e, st, ps, h, f);
    SingleVariant(st, s, Roots(f'));
    assert !f'.Nil?;
    assert Derivation(R', f', [s], w);
    EraseFree(u, e);
    ErasedTerminal(R, u, e);
    SameTerminals(R, R', e, st, h, w);
    assert Sentence(R', [s], w);
  }

  lemma SingleVariant(st: seq<State>, s: Sym, q: Rule)
    requires Variant(st, [s], q)
    ensures q == [] || q == [s]
  {
    assert [s][1..] == [];
    if q != [] && Variant(st, [], q[1..]) { assert q == [q[0]] + q[1..]; }
  }

  lemma {:induction false} EraseFree(u: seq<Sym>, e: Sym)
    ensures e !in Erase(u, e) && Erase(Erase(u, e), e) == Erase(u, e)
  {
    if u != [] {
      EraseFree(u[1..], e);
      var w := Erase(u[1..], e);
      if u[0] != e {
        assert Erase(u, e) == [u[0]] + w && ([u[0]] + w)[1..] == w;
      } else {
        assert Erase(u, e) == [] + w == w;
      }
    }
  }

  lemma {:induction false} ErasedTerminal(R: Rules, u: seq<Sym>, e: Sym)
    requires AllTerminal(R, u)
    ensures AllTerminal(R, Erase(u, e))
  {
    if u != [] {
      assert [u[0]] + u[1..] == u;
      TerminalTail([u[0]], u[1..], R);
      ErasedTerminal(R, u[1..], e);
      if u[0] != e { TerminalTail([u[0]], Erase(u[1..], e), R); }
    }
  }

  lemma StringsOld(R: Rules, R': Rules, e: Sym, st: seq<State>, h: Sym, s: Sym, w: seq<Sym>)
    requires Exact(R, e, st) && e < |R| && R[e] == [] && Rewritten(R, R', e, st, h)
    requires Reads(R', e, [s], w)
    ensures Reads(R, e, [s], w)
  {
    var u :| Sentence(R', [s], u) && Erase(u, e) == w;
    var f :| Derivation(R', f, [s], u);
    SameTerminals(R, R', e, st, h, u);
    var f' := Restore(R, R', e, st, h, f);
    assert Derivation(R, f', [s], Yield(f'));
    assert Sentence(R, [s], Yield(f'));
  }

  /** The promise is kept exactly for the grammars without phantoms. */
  lemma KeptIffNoPhantoms(R: Rules, R': Rules, e: Sym, st: seq<State>, ps: seq<seq<State>>, h: Sym)
    requires Marked(R, e, st, ps) && Closed(R) && e < |R| && R[e] == [] && Rewritten(R, R', e, st, h)
    ensures LanguageKept(R, R', e, st) <==> !exists P :: Phantom(R, e, P)
  {
    ExactWithoutPhantoms(R, e, st, ps);
    if LanguageKept(R, R', e, st) {
      forall s: Sym | s < |R| ensures st[s] != NON_EMPTY <==> Nullable(R, e, s) {
        if Nullable(R, e, s) { NullableUnmarked(R, e, st, ps, s); }
      }
    }
    if Exact(R, e, st) {
      forall s: Sym, w | s < |R|
        ensures Reads(R, e, [s], w) <==> Reads(R', e, [s], w) || (w == [] && st[s] != NON_EMPTY)
      {
        if Reads(R, e, [s], w) && w != [] { StringsSurvive(R, R', e, st, ps, h, s, w); }
        if Reads(R', e, [s], w) { StringsOld(R, R', e, st, h, s, w); }
      }
    }
  }

  // ----- the distinguished symbol -----

  /** A distinguished symbol that may be empty gets its empty string back. */
  lemma HeadWhole(R: Rules, R': Rules, e: Sym, st: seq<State>, h: Sym, w: seq<Sym>)
    requires LanguageKept(R, R', e, st) && Rewritten(R, R', e, st, h) && e < |R| && R[e] == [] && h < |R|
    requires st[h] == CanBeEmpty && R[h] != []
    ensures Reads(R', e, [h], w) <==> Reads(R, e, [h], w)
  {
    assert [e] in RulesOf(R', h) by { assert R'[h][0] == [e]; }
    DerivesRefl(R', [e]);
    DerivesByRule(R', h, [e], [e]);
    assert Sentence(R', [h], [e]) by {
      SameTerminals(R, R', e, st, h, [e]);
      assert AllTerminal(R, [e]);
    }
    assert Erase([e], e) == [] + Erase([], e) == [];
    assert Reads(R', e, [h], []);
  }

  ghost predicate NoneEmpty(st: seq<State>, alpha: seq<Sym>) {
    forall i :: 0 <= i < |alpha| ==> MarkOf(st, alpha[i]) != IsEmpty
  }

  lemma {:induction false} NoneEmptyYield(R: Rules, R': Rules, e: Sym, st: seq<State>, h: Sym, f: Forest)
    requires Rewritten(R, R', e, st, h) && h < |R| && st[h] != CanBeEmpty
    requires Valid(R', f) && NoneEmpty(st, Roots(f))
    ensures NoneEmpty(st, Yield(f))
  {
    match f
    case Nil =>
    case Leaf(t, rest) =>
      assert Roots(f)[1..] == Roots(rest) && Roots(f)[0] == t;
      NoneEmptyYield(R, R', e, st, h, rest);
    case Node(s, kids, rest) =>
      assert Roots(f)[1..] == Roots(rest) && Roots(f)[0] == s;
      NoneEmptyYield(R, R', e, st, h, rest);
      NewRule(R, R', e, st, h, s, Roots(kids));
      assert Clean(st, Roots(kids));
      NoneEmptyYield(R, R', e, st, h, kids);
  }

  /** A distinguished symbol that cannot be empty no longer needs the empty symbol: no sentential form
      contains it, so the new grammar may be read literally. */
  lemma EmptyGone(R: Rules, R': Rules, e: Sym, st: seq<State>, h: Sym)
    requires Rewritten(R, R', e, st, h) && h < |R| && e < |R| && st[h] == NON_EMPTY && st[e] == IsEmpty
    ensures forall w :: Derives(R', [h], w) ==> e !in w
    ensures forall w :: Sentence(R', [h], w) <==> Reads(R', e, [h], w)
  {
    forall w | Derives(R', [h], w) ensures e !in w && Erase(w, e) == w {
      var f :| Derivation(R', f, [h], w);
      NoneEmptyYield(R, R', e, st, h, f);
      assert forall i :: 0 <= i < |w| ==> MarkOf(st, w[i]) != IsEmpty;
      EraseNothing(w, e);
    }
  }

  lemma {:induction false} EraseNothing(w: seq<Sym>, e: Sym)
    requires e !in w
    ensures Erase(w, e) == w
  {
    if w != [] {
      assert w[0] != e && w == [w[0]] + w[1..];
      EraseNothing(w[1..], e);
    }
  }

  // ----- the interface -----

  /** The empty symbol and the distinguished symbol after deempty. */
  predicate HeadsAfter(st: seq<State>, h: Sym, e: Sym, head: Option<Sym>, emptypt: Option<Sym>) {
    match MarkOf(st, h)
    case IsEmpty => head == None && emptypt == None
    case CanBeEmpty => head == Some(h) && emptypt == Some(e)
    case _ => head == Some(h) && emptypt == None
  }

  /** The same from the rules: the distinguished symbol is eliminated exactly if it reaches no terminal but the empty
      symbol, and the empty symbol stays exactly if the distinguished symbol does and may be taken for empty. */
  ghost predicate HeadsDecided(R: Rules, h: Sym, e: Sym, head: Option<Sym>, emptypt: Option<Sym>) {
    && head == (if ReachesNothing(R, e, h) then None else Some(h))
    && emptypt == (if ReachesNothing(R, e, h) || !PossiblyEmpty(R, e, h) then None else Some(e))
  }

  /** deempty.  The answer is false when the empty symbol is not defined. */
  method Deempty(g: Grammar) returns (ok: bool)
    requires |g.state| == |g.pstate| == |g.rules| && Closed(g.rules)
    requires forall s :: 0 <= s < |g.rules| ==> |g.pstate[s]| == |g.rules[s]|
    requires g.head.Some? && g.head.value < |g.rules|
    requires g.emptypt.Some? ==> g.emptypt.value < |g.rules| && g.rules[g.emptypt.value] == []
    modifies g
    ensures ok <==> old(g.emptypt.Some?)
    ensures !ok ==> g.rules == old(g.rules) && g.head == old(g.head) && g.emptypt == old(g.emptypt)
    ensures ok ==> var e, h := old(g.emptypt.value), old(g.head.value);
      && (exists ps :: Marked(old(g.rules), e, g.state, ps))
      && Rewritten(old(g.rules), g.rules, e, g.state, h)
      && HeadsAfter(g.state, h, e, g.head, g.emptypt)
      && HeadsDecided(old(g.rules), h, e, g.head, g.emptypt)
      && (LanguageKept(old(g.rules), g.rules, e, g.state) <==> !exists P :: Phantom(old(g.rules), e, P))
  {
    if g.emptypt == None { return false; }
    ghost var R, h := g.rules, g.head.value;
    var e := g.emptypt.value;
    MarkAll(g, e);
    ghost var ps := g.pstate;
    CleanAll(g, e);
    FixHead(g, e, R);
    MarksMean(R, e, g.state, ps, h);
    KeptIffNoPhantoms(R, g.rules, e, g.state, ps, h);
    return true;
  }

  /** The loop of deempty over all nonterminals, after the marking. */
  method CleanAll(g: Grammar, ghost e: Sym)
    requires Marked(g.rules, e, g.state, g.pstate)
    modifies g`rules, g`pstate
    ensures AllDone(g.state, old(g.rules), g.rules, |g.rules|)
  {
    ghost var R, ps, st := g.rules, g.pstate, g.state;
    var s := 0;
    while s < |g.rules|
      invariant 0 <= s <= |R| == |g.rules| == |g.pstate| && AllDone(st, R, g.rules, s)
      invariant g.rules[s..] == R[s..] && g.pstate[s..] == ps[s..]
    {
      assert g.rules[s] == g.rules[s..][0] == R[s] && g.pstate[s] == g.pstate[s..][0] == ps[s];
      assert g.rules[s + 1..] == g.rules[s..][1..] && g.pstate[s + 1..] == g.pstate[s..][1..];
      if g.rules[s] != [] {
        MarkedRows(R, e, st, ps, s);
        CleanEmpty(g, s);
      }
      s := s + 1;
    }
  }

  ghost predicate AllDone(st: seq<State>, R: Rules, R': Rules, n: nat) {
    n <= |R| == |R'| == |st| && forall s {:trigger R'[s]} :: 0 <= s < n ==> RowDone(st, st[s], R[s], R'[s])
  }

  /** The last part of deempty: what becomes of the distinguished symbol and of the empty symbol. */
  method FixHead(g: Grammar, e: Sym, ghost R: Rules)
    requires AllDone(g.state, R, g.rules, |R|) && g.head.Some? && g.head.value < |R| && g.emptypt == Some(e)
    requires R[g.head.value] == [] ==> g.state[g.head.value] != CanBeEmpty
    modifies g`rules, g`head, g`emptypt
    ensures Rewritten(R, g.rules, e, g.state, old(g.head.value))
    ensures HeadsAfter(g.state, old(g.head.value), e, g.head, g.emptypt)
  {
    var h := g.head.value;
    if g.state[h] == IsEmpty {
      g.head, g.emptypt := None, None;
    } else if g.state[h] == CanBeEmpty {
      ghost var now := g.rules;
      g.rules := g.rules[h := [[e]] + g.rules[h]];
      assert g.rules[h][1..] == now[h];
    } else {
      g.emptypt := None;
    }
  }

  lemma MarkedRows(R: Rules, e: Sym, st: seq<State>, ps: seq<seq<State>>, s: Sym)
    requires Marked(R, e, st, ps) && s < |R| && R[s] != []
    ensures MarkedRow(st, st[s], R[s], ps[s])
  {
    if st[s] != IsEmpty {
      var k :| 0 <= k < |ps[s]| && ps[s][k] != IsEmpty;
      assert Stays(ps[s], 0, k);
    }
  }

  // ----- a grammar with a phantom -----

  /** s ::= y a with a ::= a a | x, where y, x are terminals and 4 is the empty symbol. */
  const CYCLE: Rules := [[[2, 1]], [[1, 1], [3]], [], [], []]

  lemma {:induction false} CycleNeedsX(f: Forest)
    requires Valid(CYCLE, f) && AllTerminal(CYCLE, Yield(f)) && (0 in Roots(f) || 1 in Roots(f))
    ensures 3 in Yield(f)
  {
    match f
    case Leaf(t, rest) =>
      TerminalTail([t], Yield(rest), CYCLE);
      assert Terminal(CYCLE, [t][0]);
      CycleNeedsX(rest);
    case Node(s, kids, rest) =>
      TerminalTail(Yield(kids), Yield(rest), CYCLE);
      if s == 0 || s == 1 {
        if Roots(kids) == [3] {
          OneTree(CYCLE, kids, 3);
          assert Yield(kids)[0] == 3;
        } else {
          assert Roots(kids)[1] == 1;
          CycleNeedsX(kids);
        }
      } else {
        CycleNeedsX(rest);
      }
  }

  lemma CycleReads(s: Sym, w: seq<Sym>)
    requires s < 2 && Reads(CYCLE, 4, [s], w)
    ensures 3 in w
  {
    var u :| Sentence(CYCLE, [s], u) && Erase(u, 4) == w;
    var f :| Derivation(CYCLE, f, [s], u);
    CycleNeedsX(f);
    EraseKeeps(u, 3, 4);
  }

  lemma CyclePhantom()
    ensures Phantom(CYCLE, 4, {1})
  {
    if Nullable(CYCLE, 4, 1) { CycleReads(1, []); }
    assert PhantomRule(CYCLE, 4, {1}, CYCLE[1][0]);
    assert Haunted(CYCLE, 4, {1}, 1);
  }

  lemma CycleMarks(st: seq<State>, ps: seq<seq<State>>)
    requires Marked(CYCLE, 4, st, ps)
    ensures st[2] == NON_EMPTY && st[1] != NON_EMPTY && st[0] == NON_EMPTY
  {
    CycleAvoids(st, ps);
    var R, r: Rule := CYCLE, [2, 1];
    assert |R| == 5 && R[2] == [] && R[0] == [r];
    MarkedTerminal(R, 4, st, ps, 2);
    MarkedNonEmpty(R, 4, st, ps, 0, r, 0);
  }

  lemma CycleAvoids(st: seq<State>, ps: seq<seq<State>>)
    requires Marked(CYCLE, 4, st, ps)
    ensures |st| == 5 && st[1] != NON_EMPTY
  {
    CyclePhantom();
    CycleClosed();
    PhantomMember(CYCLE, 4, st, ps, {1}, 1);
  }

  lemma CycleClosed()
    ensures |CYCLE| == 5 && CYCLE[4] == [] && Closed(CYCLE)
  {
  }

  lemma PhantomMember(R: Rules, e: Sym, st: seq<State>, ps: seq<seq<State>>, P: set<Sym>, t: Sym)
    requires Marked(R, e, st, ps) && Closed(R) && e < |R| && R[e] == [] && Phantom(R, e, P) && t in P
    ensures t < |st| && st[t] != NON_EMPTY
  {
    PhantomUnmarked(R, e, st, ps, P);
  }

  lemma MarkedTerminal(R: Rules, e: Sym, st: seq<State>, ps: seq<seq<State>>, s: Sym)
    requires Marked(R, e, st, ps) && s < |R| && R[s] == [] && s != e
    ensures st[s] == NON_EMPTY
  {
  }

  /** The only rule of s has a NONEMPTY element. */
  lemma MarkedNonEmpty(R: Rules, e: Sym, st: seq<State>, ps: seq<seq<State>>, s: Sym, r: Rule, i: nat)
    requires Marked(R, e, st, ps) && s < |R| && R[s] == [r] && i < |r| && MarkOf(st, r[i]) == NON_EMPTY
    ensures st[s] == NON_EMPTY
  {
    assert SomeNonEmpty(st, R[s][0]) && ps[s][0] == NON_EMPTY;
  }

  lemma CycleVariant(st: seq<State>)
    requires MarkOf(st, 2) == NON_EMPTY && MarkOf(st, 1) != NON_EMPTY
    ensures FromSource(st, CYCLE[0], [2])
  {
    var r: Rule, q: Rule := [2, 1], [2];
    assert r[1..] == [1] && q[1..] == [] && [1][1..] == [];
    assert Variant(st, [1], []) && Variant(st, r, q);
    assert CYCLE[0][0] == r;
  }

  /** Whatever run of deempty on this grammar ends in, a counts as possibly empty and the string y, which
      the old grammar does not generate, is generated by the new one. */
  lemma CycleGainsString(R': Rules, st: seq<State>, ps: seq<seq<State>>)
    requires Marked(CYCLE, 4, st, ps) && Rewritten(CYCLE, R', 4, st, 0)
    ensures Phantom(CYCLE, 4, {1}) && Reads(R', 4, [0], [2]) && !Reads(CYCLE, 4, [0], [2])
  {
    CyclePhantom();
    CycleMarks(st, ps);
    CycleVariant(st);
    assert CYCLE[0] != [];
    assert [2] in RulesOf(R', 0);
    DerivesRefl(R', [2]);
    DerivesByRule(R', 0, [2], [2]);
    assert CYCLE[2] == [] && R'[2] == [];
    EraseNothing([2], 4);
    assert Sentence(R', [0], [2]);
    if Reads(CYCLE, 4, [0], [2]) { CycleReads(0, [2]); }
  }

  lemma {:induction false} EraseKeeps(w: seq<Sym>, x: Sym, e: Sym)
    requires x in w && x != e
    ensures x in Erase(w, e)
  {
    if w[0] != x {
      assert w == [w[0]] + w[1..];
      EraseKeeps(w[1..], x, e);
    }
  }

  // ----- a null rule that is left behind -----

  /** The grammar of the comment at the head of deempty.c with the last element of a dropped:
      a ::= b / and b ::= d | /, where a is the distinguished symbol and 3 the empty symbol; or, turned round, a ::= /
      b. */
  function Trailing(turned: bool): Rules {
    [[if turned then [3, 1] else [1, 3]], [[2], [3]], [], []]
  }

  /** deempty leaves a null rule under a in the first form, and none in the second. */
  lemma TrailingLeavesNull(turned: bool, R': Rules, st: seq<State>, ps: seq<seq<State>>)
    requires Marked(Trailing(turned), 3, st, ps) && Rewritten(Trailing(turned), R', 3, st, 0)
    ensures [] in RulesOf(R', 0) <==> !turned
  {
    var R := Trailing(turned);
    var r := R[0][0];
    assert st[2] == NON_EMPTY && st[3] == IsEmpty by { assert R[2] == [] && R[3] == []; }
    assert ps[1][0] == NON_EMPTY by { assert R[1][0][0] == 2 && SomeNonEmpty(st, R[1][0]); }
    assert ps[1][1] == IsEmpty by { assert R[1][1] == [3] && AllEmpty(st, R[1][1]); }
    assert st[1] == CanBeEmpty;
    var one := if turned then 1 else 0;
    assert MarkOf(st, r[one]) == CanBeEmpty && !AllEmpty(st, r) && Mix(st, r);
    assert ps[0][0] != IsEmpty && st[0] == CanBeEmpty;
    assert R'[0] == [[3]] + R'[0][1..];
    TailFacts(st, r);
    assert R[0][1..] == [];
    assert LeavesNull(st, R[0]) <==> !turned;
  }
}
