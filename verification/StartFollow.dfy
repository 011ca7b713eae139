/** startfollow.c: start sets and follow sets of the symbols reachable from the distinguished one. */
module StartFollow {
  import opened Wrappers
  import opened Grammars
  import opened Reachability

  // ----- what the sets mean -----

  /** a derives a sentential form that begins with the terminal t. */
  ghost predicate Begins(R: Rules, a: Sym, t: Sym) {
    Terminal(R, t) && exists beta :: Derives(R, [a], [t] + beta)
  }

  /** Some sentential form derived from h has x immediately followed by the terminal t. */
  ghost predicate Adjacent(R: Rules, h: Sym, x: Sym, t: Sym) {
    Terminal(R, t) && exists u, v :: Derives(R, [h], u + [x, t] + v)
  }

  /** No production reachable from h has a null body: getstarts dereferences the first element. */
  ghost predicate NonNullFrom(R: Rules, h: Sym) {
    forall s: Sym, k :: s < |R| && Reaches(R, h, s) && 0 <= k < |R[s]| ==> R[s][k] != []
  }

  // ----- lists used as sets -----

  ghost function Elems(xs: seq<Sym>): set<Sym> { set x | x in xs }

  ghost predicate Proper(xs: seq<Sym>, n: nat) {
    (forall i :: 0 <= i < |xs| ==> xs[i] < n) && (forall i, j :: 0 <= i < j < |xs| ==> xs[i] != xs[j])
  }

  ghost predicate ProperAll(xss: seq<seq<Sym>>, n: nat) {
    |xss| == n && forall i :: 0 <= i < n ==> Proper(xss[i], n)
  }

  ghost function Below(n: nat): (s: set<nat>)
    ensures |s| == n && forall x: nat :: x in s <==> x < n
  {
    if n == 0 then {} else Below(n - 1) + {n - 1}
  }

  lemma {:induction false} ProperLength(xs: seq<Sym>, n: nat)
    requires Proper(xs, n)
    ensures |Elems(xs)| == |xs| <= n
  {
    if xs != [] {
      var ys := xs[..|xs| - 1];
      ProperLength(ys, n);
      assert Elems(xs) == Elems(ys) + {xs[|xs| - 1]};
    }
    assert Elems(xs) <= Below(n);
    SubsetSize(Elems(xs), Below(n));
  }

  lemma {:induction false} SubsetSize(a: set<nat>, b: set<nat>)
    requires a <= b
    ensures |a| <= |b|
  {
    if x :| x in a { SubsetSize(a - {x}, b - {x}); }
  }

  ghost function TotalLength(xss: seq<seq<Sym>>): nat {
    if xss == [] then 0 else |xss[0]| + TotalLength(xss[1..])
  }

  lemma {:induction false} TotalBound(xss: seq<seq<Sym>>, n: nat)
    requires forall i :: 0 <= i < |xss| ==> Proper(xss[i], n)
    ensures TotalLength(xss) <= |xss| * n
  {
    if xss != [] {
      ProperLength(xss[0], n);
      TotalBound(xss[1..], n);
    }
  }

  /** Every list of the second family extends the list at the same place in the first. */
  ghost predicate Grown(a: seq<seq<Sym>>, b: seq<seq<Sym>>) {
    |a| == |b| && forall i :: 0 <= i < |a| ==> a[i] <= b[i]
  }

  lemma {:induction false} TotalGrows(a: seq<seq<Sym>>, b: seq<seq<Sym>>)
    requires Grown(a, b)
    ensures TotalLength(a) <= TotalLength(b) && (a != b ==> TotalLength(a) < TotalLength(b))
  {
    if a != [] {
      assert a == [a[0]] + a[1..] && b == [b[0]] + b[1..];
      TotalGrows(a[1..], b[1..]);
      if |a[0]| == |b[0]| { assert a[0] == b[0][..|a[0]|] == b[0]; }
    }
  }

  // ----- addsym and addsymbols -----

  /** The lists that addsym can be handed: the start or the follow list of a symbol. */
  datatype Place = Starts(s: Sym) | Follows(s: Sym)

  ghost predicate Lists(g: Grammar)
    reads g
  {
    |g.state| == |g.rules| && ProperAll(g.starter, |g.rules|) && ProperAll(g.follows, |g.rules|)
  }

  function At(st: seq<seq<Sym>>, fo: seq<seq<Sym>>, p: Place): seq<Sym>
    requires p.s < |st| && p.s < |fo|
  {
    if p.Starts? then st[p.s] else fo[p.s]
  }

  /** The start lists, with the one at p replaced if p is a start list; likewise for follow lists. */
  function StartsWith(st: seq<seq<Sym>>, p: Place, xs: seq<Sym>): seq<seq<Sym>>
    requires p.s < |st|
  {
    if p.Starts? then st[p.s := xs] else st
  }

  function FollowsWith(fo: seq<seq<Sym>>, p: Place, xs: seq<Sym>): seq<seq<Sym>>
    requires p.s < |fo|
  {
    if p.Follows? then fo[p.s := xs] else fo
  }

  function Added(xs: seq<Sym>, x: Sym): seq<Sym> {
    if x in xs then xs else xs + [x]
  }

  method AddSym(g: Grammar, dst: Place, x: Sym)
    requires Lists(g) && dst.s < |g.rules| && x < |g.rules|
    modifies g`starter, g`follows, g`changed
    ensures Lists(g)
    ensures var now := Added(old(At(g.starter, g.follows, dst)), x);
      && g.starter == StartsWith(old(g.starter), dst, now) && g.follows == FollowsWith(old(g.follows), dst, now)
      && g.changed == (old(g.changed) || x !in old(At(g.starter, g.follows, dst)))
  {
    var es := At(g.starter, g.follows, dst);
    var k := 0;
    while k < |es| && es[k] != x
      invariant 0 <= k <= |es| && x !in es[..k]
    {
      k := k + 1;
    }
    if k == |es| {
      assert es[..k] == es;
      g.starter, g.follows := StartsWith(g.starter, dst, es + [x]), FollowsWith(g.follows, dst, es + [x]);
      g.changed := true;
    }
  }

  /** The list xs extended by the members of ys it lacks, in their order. */
  function Merge(xs: seq<Sym>, ys: seq<Sym>): seq<Sym> {
    if ys == [] then xs
    else
      Added(Merge(xs, ys[..|ys| - 1]), ys[|ys| - 1])
  }

  lemma {:induction false} MergeUnion(xs: seq<Sym>, ys: seq<Sym>)
    ensures Elems(Merge(xs, ys)) == Elems(xs) + Elems(ys) && xs <= Merge(xs, ys)
    ensures Elems(ys) <= Elems(xs) ==> Merge(xs, ys) == xs
  {
    if ys != [] {
      var y := ys[|ys| - 1];
      MergeUnion(xs, ys[..|ys| - 1]);
      ElemsSnoc(ys);
      var zs := Merge(xs, ys[..|ys| - 1]);
      if y !in zs { ElemsSnoc(zs + [y]); assert (zs + [y])[..|zs|] == zs; }
    }
  }

  lemma ElemsSnoc(ys: seq<Sym>)
    requires ys != []
    ensures Elems(ys) == Elems(ys[..|ys| - 1]) + {ys[|ys| - 1]}
  {
    assert ys == ys[..|ys| - 1] + [ys[|ys| - 1]];
  }

  /** One more member merged; merging a list into itself never changes it. */
  lemma MergeStep(d0: seq<Sym>, s0: seq<Sym>, k: nat)
    requires k < |s0|
    ensures Merge(d0, s0[..k + 1]) == Added(Merge(d0, s0[..k]), s0[k])
    ensures d0 <= Merge(d0, s0[..k]) <= Merge(d0, s0[..k + 1])
    ensures d0 == s0 ==> Merge(d0, s0[..k + 1]) == d0
  {
    assert s0[..k + 1][..k] == s0[..k];
    MergeUnion(d0, s0[..k]);
    MergeUnion(d0, s0[..k + 1]);
  }

  /** The two families of lists after the first k members of the list at src went to the one at dst. */
  ghost predicate Merging(st: seq<seq<Sym>>, fo: seq<seq<Sym>>, st': seq<seq<Sym>>, fo': seq<seq<Sym>>,
      dst: Place, src: Place, k: nat)
    requires |st| == |fo| && dst.s < |st| && src.s < |st|
  {
    && k <= |At(st, fo, src)|
    && (var now := Merge(At(st, fo, dst), At(st, fo, src)[..k]);
      st' == StartsWith(st, dst, now) && fo' == FollowsWith(fo, dst, now))
  }

  lemma MergingStart(st: seq<seq<Sym>>, fo: seq<seq<Sym>>, dst: Place, src: Place)
    requires |st| == |fo| && dst.s < |st| && src.s < |st|
    ensures Merging(st, fo, st, fo, dst, src, 0)
  {
    assert At(st, fo, src)[..0] == [];
    assert StartsWith(st, dst, At(st, fo, dst)) == st && FollowsWith(fo, dst, At(st, fo, dst)) == fo;
  }

  /** The list walked stays as it was, even if it is the one appended to; one more of its members is merged. */
  lemma MergingStep(st: seq<seq<Sym>>, fo: seq<seq<Sym>>, st': seq<seq<Sym>>, fo': seq<seq<Sym>>,
      dst: Place, src: Place, k: nat)
    requires |st| == |fo| && dst.s < |st| && src.s < |st| && Merging(st, fo, st', fo', dst, src, k)
    ensures |st'| == |fo'| == |st| && At(st', fo', src) == At(st, fo, src)
    ensures k < |At(st, fo, src)| ==>
      var d, s, x := At(st, fo, dst), At(st, fo, src), At(st, fo, src)[k];
      var now := Added(At(st', fo', dst), x);
      && Merging(st, fo, StartsWith(st', dst, now), FollowsWith(fo', dst, now), dst, src, k + 1)
      && (Merge(d, s[..k + 1]) != d <==> Merge(d, s[..k]) != d || x !in At(st', fo', dst))
  {
    var d, s := At(st, fo, dst), At(st, fo, src);
    var m := Merge(d, s[..k]);
    if dst == src { SelfMerge(d, k); }
    Replaced(st, fo, dst, src, m, m);
    if k < |s| {
      MergeStep(d, s, k);
      Replaced(st, fo, dst, src, m, Merge(d, s[..k + 1]));
    }
  }

  lemma SelfMerge(d: seq<Sym>, k: nat)
    requires k <= |d|
    ensures Merge(d, d[..k]) == d
  {
    MergeUnion(d, d[..k]);
  }

  lemma Replaced(st: seq<seq<Sym>>, fo: seq<seq<Sym>>, dst: Place, src: Place, xs: seq<Sym>, ys: seq<Sym>)
    requires |st| == |fo| && dst.s < |st| && src.s < |st|
    requires dst == src ==> xs == At(st, fo, src)
    ensures var st', fo' := StartsWith(st, dst, xs), FollowsWith(fo, dst, xs);
      && At(st', fo', dst) == xs && At(st', fo', src) == At(st, fo, src)
      && StartsWith(st', dst, ys) == StartsWith(st, dst, ys) && FollowsWith(fo', dst, ys) == FollowsWith(fo, dst, ys)
  {
  }

  /** addsymbols: walks the live list at `src` while appending to the live list at `dst`.  The two may
      be the same list (left recursion in getstarts, right recursion in getfollows). */
  method AddSymbols(g: Grammar, dst: Place, src: Place)
    requires Lists(g) && dst.s < |g.rules| && src.s < |g.rules|
    modifies g`starter, g`follows, g`changed
    ensures Lists(g)
    ensures var d, s := old(At(g.starter, g.follows, dst)), old(At(g.starter, g.follows, src));
      && g.starter == StartsWith(old(g.starter), dst, Merge(d, s))
      && g.follows == FollowsWith(old(g.follows), dst, Merge(d, s))
      && g.changed == (old(g.changed) || Merge(d, s) != d)
  {
    ghost var st, fo := g.starter, g.follows;
    ghost var d0, s0 := At(st, fo, dst), At(st, fo, src);
    var k := 0;
    MergingStart(st, fo, dst, src);
    while k < |At(g.starter, g.follows, src)|
      invariant Lists(g) && 0 <= k <= |s0| && Merging(st, fo, g.starter, g.follows, dst, src, k)
      invariant g.changed == (old(g.changed) || Merge(d0, s0[..k]) != d0)
      decreases |s0| - k
    {
      MergingStep(st, fo, g.starter, g.follows, dst, src, k);
      AddSym(g, dst, At(g.starter, g.follows, src)[k]);
      k := k + 1;
    }
    MergingStep(st, fo, g.starter, g.follows, dst, src, k);
    assert s0[..k] == s0;
  }

  // ----- start sets -----

  /** The union of the start lists of the leading symbols of the first n rules of s. */
  ghost function Leading(R: Rules, st: seq<seq<Sym>>, s: Sym, n: nat): set<Sym>
    requires s < |R| && n <= |R[s]| && |st| == |R| && Closed(R)
    requires forall k :: 0 <= k < |R[s]| ==> R[s][k] != []
  {
    if n == 0 then {} else Leading(R, st, s, n - 1) + Elems(st[R[s][n - 1][0]])
  }

  lemma {:induction false} LeadingMember(R: Rules, st: seq<seq<Sym>>, s: Sym, n: nat, x: Sym)
    requires s < |R| && n <= |R[s]| && |st| == |R| && Closed(R)
    requires forall k :: 0 <= k < |R[s]| ==> R[s][k] != []
    ensures x in Leading(R, st, s, n) <==> exists k :: 0 <= k < n && x in st[R[s][k][0]]
  {
    if n > 0 { LeadingMember(R, st, s, n - 1, x); }
  }

  /** Only the start list of s changes, and it gains exactly the given members. */
  ghost predicate StartGains(R: Rules, st: seq<seq<Sym>>, st': seq<seq<Sym>>, s: Sym, more: set<Sym>)
    requires s < |R|
  {
    && |st| == |R| && Grown(st, st') && (forall x: Sym :: x < |R| && x != s ==> st'[x] == st[x])
    && Elems(st'[s]) == Elems(st[s]) + more
  }

  /** What dosymbol does to the start lists. */
  ghost predicate StartStep(R: Rules, st: seq<seq<Sym>>, st': seq<seq<Sym>>, s: Sym)
    requires s < |R| && Closed(R) && forall k :: 0 <= k < |R[s]| ==> R[s][k] != []
  {
    |st| == |R| && StartGains(R, st, st', s, if Terminal(R, s) then {s} else Leading(R, st, s, |R[s]|))
  }

  /** One call of addsymbols inside dosymbol; b may be s itself. */
  lemma LeadingStep(R: Rules, st: seq<seq<Sym>>, now: seq<seq<Sym>>, next: seq<seq<Sym>>, s: Sym, p: nat)
    requires s < |R| && p < |R[s]| && |st| == |R| && Closed(R)
    requires forall k :: 0 <= k < |R[s]| ==> R[s][k] != []
    requires StartGains(R, st, now, s, Leading(R, st, s, p))
    requires next == now[s := Merge(now[s], now[R[s][p][0]])]
    ensures StartGains(R, st, next, s, Leading(R, st, s, p + 1))
    ensures next == st <==> now == st && Merge(now[s], now[R[s][p][0]]) == now[s]
  {
    var b := R[s][p][0];
    MergeUnion(now[s], now[b]);
    assert next[s] == Merge(now[s], now[b]);
    assert Elems(next[s]) == Elems(now[s]) + Elems(now[b]);
    if b != s { assert now[b] == st[b]; }
    assert st[s] <= now[s] <= next[s];
    assert Grown(now, next);
    GrownTrans(st, now, next);
  }

  /** The nonterminal branch of dosymbol. */
  method StartOfRules(g: Grammar, s: Sym)
    requires Lists(g) && Closed(g.rules) && s < |g.rules|
    requires forall k :: 0 <= k < |g.rules[s]| ==> g.rules[s][k] != []
    modifies g`starter, g`follows, g`changed
    ensures Lists(g) && g.follows == old(g.follows)
    ensures StartGains(g.rules, old(g.starter), g.starter, s, Leading(g.rules, old(g.starter), s, |g.rules[s]|))
    ensures g.changed == (old(g.changed) || g.starter != old(g.starter))
  {
    ghost var R, st := g.rules, g.starter;
    var p := 0;
    while p < |g.rules[s]|
      invariant 0 <= p <= |R[s]| && Lists(g) && g.follows == old(g.follows)
      invariant StartGains(R, st, g.starter, s, Leading(R, st, s, p))
      invariant g.changed == (old(g.changed) || g.starter != st)
    {
      var b := g.rules[s][p][0];
      ghost var now := g.starter;
      AddSymbols(g, Starts(s), Starts(b));
      LeadingStep(R, st, now, g.starter, s, p);
      p := p + 1;
    }
  }

  method DoSymbol(g: Grammar, s: Sym)
    requires Lists(g) && Closed(g.rules) && s < |g.rules|
    requires forall k :: 0 <= k < |g.rules[s]| ==> g.rules[s][k] != []
    modifies g`starter, g`follows, g`changed
    ensures Lists(g) && g.follows == old(g.follows)
    ensures StartStep(g.rules, old(g.starter), g.starter, s)
    ensures g.changed == (old(g.changed) || g.starter != old(g.starter))
  {
    if g.rules[s] == [] {
      ghost var st := g.starter;
      AddSym(g, Starts(s), s);
      ElemsSnoc(st[s] + [s]);
      assert (st[s] + [s])[..|st[s]|] == st[s];
    } else {
      StartOfRules(g, s);
    }
  }

  ghost predicate SoundStarts(R: Rules, st: seq<seq<Sym>>) {
    |st| == |R| && forall a: Sym, t :: a < |R| && t in st[a] ==> Begins(R, a, t)
  }

  /** No further call of dosymbol on s would change its start list. */
  ghost predicate StartFixed(R: Rules, st: seq<seq<Sym>>, s: Sym)
    requires s < |R| && |st| == |R| && Closed(R)
  {
    && (Terminal(R, s) ==> s in st[s])
    && forall k :: 0 <= k < |R[s]| && R[s][k] != [] ==> Elems(st[R[s][k][0]]) <= Elems(st[s])
  }

  ghost predicate StartAllFixed(R: Rules, state: seq<State>, st: seq<seq<Sym>>)
    requires Closed(R) && |R| == |state| == |st|
  {
    forall s: Sym {:trigger StartFixed(R, st, s)} :: s < |R| && state[s] == Touched ==> StartFixed(R, st, s)
  }

  lemma BeginsSelf(R: Rules, t: Sym)
    requires Terminal(R, t)
    ensures Begins(R, t, t)
  {
    DerivesRefl(R, [t]);
    assert [t] == [t] + [];
  }

  lemma BeginsByRule(R: Rules, s: Sym, body: Rule, t: Sym)
    requires body in RulesOf(R, s) && body != [] && Begins(R, body[0], t)
    ensures Begins(R, s, t)
  {
    var beta :| Derives(R, [body[0]], [t] + beta);
    var tail := body[1..];
    DerivesRefl(R, tail);
    DerivesConcat(R, [body[0]], tail, [t] + beta, tail);
    HeadTail(body);
    ConcatAssoc([t], beta, tail);
    DerivesByRule(R, s, body, [t] + (beta + tail));
  }

  lemma StartStepSound(R: Rules, st: seq<seq<Sym>>, st': seq<seq<Sym>>, s: Sym)
    requires s < |R| && Closed(R) && forall k :: 0 <= k < |R[s]| ==> R[s][k] != []
    requires StartStep(R, st, st', s) && SoundStarts(R, st)
    ensures SoundStarts(R, st')
  {
    forall a: Sym, t | a < |R| && t in st'[a] ensures Begins(R, a, t) {
      if a == s && t !in st[s] {
        assert t in Elems(st'[s]);
        if Terminal(R, s) {
          BeginsSelf(R, s);
        } else {
          LeadingMember(R, st, s, |R[s]|, t);
          var k :| 0 <= k < |R[s]| && t in st[R[s][k][0]];
          BeginsByRule(R, s, R[s][k], t);
        }
      }
    }
  }

  lemma StartStepFixed(R: Rules, st: seq<seq<Sym>>, s: Sym)
    requires s < |R| && Closed(R) && forall k :: 0 <= k < |R[s]| ==> R[s][k] != []
    requires StartStep(R, st, st, s)
    ensures StartFixed(R, st, s)
  {
    if Terminal(R, s) {
      assert s in Elems(st[s]);
    }
    forall k, x | 0 <= k < |R[s]| && x in Elems(st[R[s][k][0]]) ensures x in Elems(st[s]) {
      LeadingMember(R, st, s, |R[s]|, x);
    }
  }

  /** The marks of reachable.c seen as a set that rules do not leave. */
  ghost predicate MarksClosed(R: Rules, state: seq<State>) {
    |state| == |R| && forall s: Sym, t: Sym {:trigger Refers(R, s, t)} ::
      s < |R| && state[s] == Touched && Refers(R, s, t) ==>
      t < |R| && state[t] == Touched
  }

  ghost predicate NonNullMarked(R: Rules, state: seq<State>) {
    |state| == |R| && forall s: Sym, k {:trigger R[s][k]} :: s < |R| && state[s] == Touched && 0 <= k < |R[s]| ==>
      R[s][k] != []
  }

  ghost predicate AllMarked(state: seq<State>, alpha: seq<Sym>) {
    forall i :: 0 <= i < |alpha| ==> alpha[i] < |state| && state[alpha[i]] == Touched
  }

  lemma {:induction false} YieldMarked(R: Rules, state: seq<State>, f: Forest)
    requires MarksClosed(R, state) && Valid(R, f) && AllMarked(state, Roots(f))
    ensures AllMarked(state, Yield(f))
  {
    match f
    case Nil =>
    case Leaf(t, rest) =>
      assert Roots(f)[1..] == Roots(rest) && Roots(f)[0] == t;
      YieldMarked(R, state, rest);
    case Node(s, kids, rest) =>
      assert Roots(f)[1..] == Roots(rest) && Roots(f)[0] == s;
      YieldMarked(R, state, rest);
      RuleMarked(R, state, s, Roots(kids));
      YieldMarked(R, state, kids);
  }

  lemma RuleMarked(R: Rules, state: seq<State>, s: Sym, body: Rule)
    requires MarksClosed(R, state) && s < |R| && state[s] == Touched && body in RulesOf(R, s)
    ensures AllMarked(state, body)
  {
    forall i | 0 <= i < |body| ensures body[i] < |state| && state[body[i]] == Touched {
      assert Refers(R, s, body[i]);
    }
  }

  /** At the fixed point the first symbol of anything derived has its start set inside that of the
      first root. */
  lemma {:induction false} StartOfYield(R: Rules, state: seq<State>, st: seq<seq<Sym>>, f: Forest)
    requires MarksClosed(R, state) && NonNullMarked(R, state) && |st| == |R| && Closed(R)
    requires StartAllFixed(R, state, st)
    requires Valid(R, f) && AllMarked(state, Roots(f)) && Roots(f) != []
    ensures Yield(f) != [] && Yield(f)[0] < |st| && Elems(st[Yield(f)[0]]) <= Elems(st[Roots(f)[0]])
  {
    match f
    case Leaf(t, rest) =>
      assert Roots(f)[0] == t;
    case Node(s, kids, rest) =>
      assert Roots(f)[0] == s;
      RuleMarked(R, state, s, Roots(kids));
      var k :| 0 <= k < |R[s]| && R[s][k] == Roots(kids);
      StartOfYield(R, state, st, kids);
      assert StartFixed(R, st, s);
      assert Elems(st[R[s][k][0]]) <= Elems(st[s]);
  }

  /** One round of getstarts. */
  method StartRound(g: Grammar)
    requires Lists(g) && Closed(g.rules) && NonNullMarked(g.rules, g.state) && SoundStarts(g.rules, g.starter)
    modifies g`starter, g`follows, g`changed
    ensures Lists(g) && g.follows == old(g.follows) && SoundStarts(g.rules, g.starter)
    ensures Grown(old(g.starter), g.starter) && (g.changed <==> g.starter != old(g.starter))
    ensures !g.changed ==> StartAllFixed(g.rules, g.state, g.starter)
  {
    ghost var R, st := g.rules, g.starter;
    g.changed := false;
    var s := 0;
    while s < |g.rules|
      invariant 0 <= s <= |R| && Lists(g) && g.follows == old(g.follows) && SoundStarts(R, g.starter)
      invariant Grown(st, g.starter) && (g.changed <==> g.starter != st)
      invariant !g.changed ==> forall t: Sym {:trigger StartFixed(R, st, t)} ::
        t < s && g.state[t] == Touched ==> StartFixed(R, st, t)
    {
      if g.state[s] == Touched {
        ghost var now := g.starter;
        DoSymbol(g, s);
        StartStepSound(R, now, g.starter, s);
        if g.starter == now { StartStepFixed(R, now, s); }
        GrownTrans(st, now, g.starter);
      }
      s := s + 1;
    }
  }

  method GetStarts(g: Grammar)
    requires Lists(g) && Closed(g.rules) && NonNullMarked(g.rules, g.state)
    requires forall s: Sym :: s < |g.rules| ==> g.starter[s] == []
    modifies g`starter, g`follows, g`changed
    ensures Lists(g) && g.follows == old(g.follows) && SoundStarts(g.rules, g.starter)
    ensures StartAllFixed(g.rules, g.state, g.starter)
  {
    ghost var n := |g.rules|;
    g.changed := true;
    TotalBound(g.starter, n);
    while g.changed
      invariant Lists(g) && g.follows == old(g.follows) && SoundStarts(g.rules, g.starter)
      invariant !g.changed ==> StartAllFixed(g.rules, g.state, g.starter)
      invariant TotalLength(g.starter) <= n * n
      decreases n * n - TotalLength(g.starter), g.changed
    {
      ghost var st := g.starter;
      StartRound(g);
      TotalGrows(st, g.starter);
      TotalBound(g.starter, n);
    }
  }

  lemma GrownTrans(a: seq<seq<Sym>>, b: seq<seq<Sym>>, c: seq<seq<Sym>>)
    requires Grown(a, b) && Grown(b, c)
    ensures Grown(a, c) && (a == c <==> a == b && b == c)
  {
    if a == c {
      forall i | 0 <= i < |a| ensures b[i] == a[i] {
        assert a[i] <= b[i] <= a[i];
      }
    }
  }

  /** The start set of a marked symbol is exact. */
  lemma StartsExact(R: Rules, state: seq<State>, st: seq<seq<Sym>>, a: Sym, t: Sym)
    requires MarksClosed(R, state) && NonNullMarked(R, state) && Closed(R) && SoundStarts(R, st)
    requires StartAllFixed(R, state, st)
    requires a < |R| && state[a] == Touched
    ensures t in st[a] <==> Begins(R, a, t)
  {
    if Begins(R, a, t) {
      var beta :| Derives(R, [a], [t] + beta);
      var f :| Derivation(R, f, [a], [t] + beta);
      YieldMarked(R, state, f);
      StartOfYield(R, state, st, f);
      assert Yield(f)[0] == t && StartFixed(R, st, t);
      assert t in Elems(st[t]);
    }
  }

  // ----- follow sets -----

  ghost predicate SoundFollows(R: Rules, h: Sym, fo: seq<seq<Sym>>) {
    |fo| == |R| && forall x: Sym, t :: x < |R| && t in fo[x] ==> Adjacent(R, h, x, t)
  }

  lemma DerivesBody(R: Rules, h: Sym, u: seq<Sym>, s: Sym, v: seq<Sym>, body: Rule)
    requires Derives(R, [h], u + [s] + v) && body in RulesOf(R, s)
    ensures Derives(R, [h], u + body + v)
  {
    DerivesRefl(R, body);
    DerivesByRule(R, s, body, body);
    DerivesReplace(R, [h], u, s, v, body);
  }

  lemma RegroupPair(u: seq<Sym>, body: Rule, i: nat, v: seq<Sym>)
    requires i + 1 < |body|
    ensures u + body + v == (u + body[..i]) + [body[i], body[i + 1]] + (body[i + 2..] + v)
  {
    assert body == body[..i] + [body[i], body[i + 1]] + body[i + 2..];
    Regroup(u, body[..i], [body[i], body[i + 1]], body[i + 2..], v);
  }

  /** First pass: neighbours in the body of a reachable rule. */
  lemma AdjacentPair(R: Rules, h: Sym, s: Sym, body: Rule, i: nat, t: Sym)
    requires Reaches(R, h, s) && body in RulesOf(R, s) && i + 1 < |body| && Begins(R, body[i + 1], t)
    ensures Adjacent(R, h, body[i], t)
  {
    var p :| Path(R, p) && p[0] == h && p[|p| - 1] == s;
    var u, v := ReachesDerives(R, p);
    DerivesBody(R, h, u, s, v, body);
    var x, y := body[i], body[i + 1];
    RegroupPair(u, body, i, v);
    AdjacentStart(R, h, u + body[..i], x, y, body[i + 2..] + v, t);
  }

  lemma RegroupStart(u: seq<Sym>, x: Sym, y: Sym, v: seq<Sym>, t: Sym, beta: seq<Sym>)
    ensures u + [x, y] + v == (u + [x]) + [y] + v
    ensures (u + [x]) + ([t] + beta) + v == u + [x, t] + (beta + v)
  {
  }

  lemma AdjacentStart(R: Rules, h: Sym, u: seq<Sym>, x: Sym, y: Sym, v: seq<Sym>, t: Sym)
    requires Derives(R, [h], u + [x, y] + v) && Begins(R, y, t)
    ensures Adjacent(R, h, x, t)
  {
    var beta :| Derives(R, [y], [t] + beta);
    RegroupStart(u, x, y, v, t, beta);
    DerivesReplace(R, [h], u + [x], y, v, [t] + beta);
  }

  lemma RegroupLast(u: seq<Sym>, s: Sym, body: Rule, t: Sym, v: seq<Sym>)
    requires body != []
    ensures u + [s, t] + v == u + [s] + ([t] + v)
    ensures u + body + ([t] + v) == (u + body[..|body| - 1]) + [body[|body| - 1], t] + v
  {
    assert body == body[..|body| - 1] + [body[|body| - 1]];
  }

  /** Second pass: what follows s follows the last element of a rule of s. */
  lemma AdjacentLast(R: Rules, h: Sym, s: Sym, body: Rule, t: Sym)
    requires Adjacent(R, h, s, t) && body in RulesOf(R, s) && body != []
    ensures Adjacent(R, h, body[|body| - 1], t)
  {
    var u, v :| Derives(R, [h], u + [s, t] + v);
    RegroupLast(u, s, body, t, v);
    DerivesBody(R, h, u, s, [t] + v, body);
  }

  /** The follow lists gain members only from the start lists of right neighbours in body[..n + 1]. */
  ghost predicate PairGains(st: seq<seq<Sym>>, fo: seq<seq<Sym>>, fo': seq<seq<Sym>>, body: Rule, n: nat)
    requires n < |body| && (forall i :: 0 <= i < |body| ==> body[i] < |fo|) && |st| == |fo|
  {
    && Grown(fo, fo')
    && (forall i :: 0 <= i < n ==> Elems(st[body[i + 1]]) <= Elems(fo'[body[i]]))
    && (forall x: Sym, t :: x < |fo| && t in fo'[x] ==> t in fo[x] || PairSource(st, body, n, x, t))
  }

  ghost predicate PairSource(st: seq<seq<Sym>>, body: Rule, n: nat, x: Sym, t: Sym)
    requires n < |body| && forall i :: 0 <= i < |body| ==> body[i] < |st|
  {
    exists i :: 0 <= i < n && body[i] == x && t in st[body[i + 1]]
  }

  lemma PairStep(st: seq<seq<Sym>>, fo: seq<seq<Sym>>, now: seq<seq<Sym>>, body: Rule, n: nat)
    requires n + 1 < |body| && (forall i :: 0 <= i < |body| ==> body[i] < |fo|) && |st| == |fo|
    requires PairGains(st, fo, now, body, n)
    ensures PairGains(st, fo, now[body[n] := Merge(now[body[n]], st[body[n + 1]])], body, n + 1)
  {
    var x, more := body[n], st[body[n + 1]];
    var next := now[x := Merge(now[x], more)];
    MergeUnion(now[x], more);
    assert Elems(next[x]) == Elems(now[x]) + Elems(more);
    assert Grown(now, next);
    GrownTrans(fo, now, next);
    forall i | 0 <= i < n + 1 ensures Elems(st[body[i + 1]]) <= Elems(next[body[i]]) {
      if i < n { assert Elems(st[body[i + 1]]) <= Elems(now[body[i]]); }
    }
    forall y: Sym, t | y < |fo| && t in next[y] ensures t in fo[y] || PairSource(st, body, n + 1, y, t) {
      if t in now[y] {
        if t !in fo[y] { assert PairSource(st, body, n, y, t); }
      } else {
        assert y == x && t in Elems(next[x]) && t !in Elems(now[x]);
        assert t in Elems(more);
        assert body[n] == y && t in st[body[n + 1]];
      }
    }
  }

  method GetFollowRule(g: Grammar, body: Rule)
    requires Lists(g) && body != [] && forall i :: 0 <= i < |body| ==> body[i] < |g.rules|
    modifies g`starter, g`follows, g`changed
    ensures Lists(g) && g.starter == old(g.starter)
    ensures PairGains(g.starter, old(g.follows), g.follows, body, |body| - 1)
  {
    ghost var st, fo := g.starter, g.follows;
    var pes := body[0];
    var e := 1;
    while e < |body|
      invariant 1 <= e <= |body| && pes == body[e - 1] && Lists(g) && g.starter == st
      invariant PairGains(st, fo, g.follows, body, e - 1)
    {
      var es := body[e];
      PairStep(st, fo, g.follows, body, e - 1);
      AddSymbols(g, Follows(pes), Starts(es));
      pes := es;
      e := e + 1;
    }
  }

  method PushFollow(g: Grammar, body: Rule, s: Sym)
    requires Lists(g) && s < |g.rules| && forall i :: 0 <= i < |body| ==> body[i] < |g.rules|
    modifies g`starter, g`follows, g`changed
    ensures Lists(g) && g.starter == old(g.starter)
    ensures body == [] ==> g.follows == old(g.follows) && g.changed == old(g.changed)
    ensures body != [] ==> var l, fo := body[|body| - 1], old(g.follows);
      && g.follows == fo[l := Merge(fo[l], fo[s])]
      && g.changed == (old(g.changed) || Merge(fo[l], fo[s]) != fo[l])
  {
    if body != [] {
      var e := 0;
      while e + 1 < |body|
        invariant 0 <= e < |body|
      {
        e := e + 1;
      }
      AddSymbols(g, Follows(body[e]), Follows(s));
    }
  }

  lemma PairsSound(R: Rules, h: Sym, st: seq<seq<Sym>>, fo: seq<seq<Sym>>, fo': seq<seq<Sym>>, s: Sym, body: Rule)
    requires Closed(R) && SoundStarts(R, st) && SoundFollows(R, h, fo) && Reaches(R, h, s)
    requires body in RulesOf(R, s) && body != [] && forall i :: 0 <= i < |body| ==> body[i] < |R|
    requires PairGains(st, fo, fo', body, |body| - 1)
    ensures SoundFollows(R, h, fo')
  {
    forall x: Sym, t | x < |R| && t in fo'[x] ensures Adjacent(R, h, x, t) {
      if t !in fo[x] {
        assert PairSource(st, body, |body| - 1, x, t);
        var i :| 0 <= i < |body| - 1 && body[i] == x && t in st[body[i + 1]];
        AdjacentPair(R, h, s, body, i, t);
      }
    }
  }

  lemma PushSound(R: Rules, h: Sym, fo: seq<seq<Sym>>, s: Sym, body: Rule)
    requires SoundFollows(R, h, fo) && s < |R| && body in RulesOf(R, s) && body != []
    requires forall i :: 0 <= i < |body| ==> body[i] < |R|
    ensures var l := body[|body| - 1]; SoundFollows(R, h, fo[l := Merge(fo[l], fo[s])])
  {
    var l := body[|body| - 1];
    MergeUnion(fo[l], fo[s]);
    var fo' := fo[l := Merge(fo[l], fo[s])];
    forall x: Sym, t | x < |R| && t in fo'[x] ensures Adjacent(R, h, x, t) {
      if t !in fo[x] {
        assert t in Elems(fo'[l]) && t in fo[s];
        AdjacentLast(R, h, s, body, t);
      }
    }
  }

  /** The follow list of every symbol covers the start list of its right neighbour. */
  ghost predicate PairsCovered(st: seq<seq<Sym>>, fo: seq<seq<Sym>>, alpha: seq<Sym>) {
    forall i, j :: 0 <= i < j < |alpha| && j == i + 1 && alpha[i] < |fo| && alpha[j] < |st| ==>
      Elems(st[alpha[j]]) <= Elems(fo[alpha[i]])
  }

  ghost predicate AllPairsCovered(R: Rules, st: seq<seq<Sym>>, fo: seq<seq<Sym>>, s: Sym, n: nat)
    requires s < |R| && n <= |R[s]|
  {
    forall k :: 0 <= k < n ==> PairsCovered(st, fo, R[s][k])
  }

  lemma CoveredGrows(st: seq<seq<Sym>>, fo: seq<seq<Sym>>, fo': seq<seq<Sym>>, alpha: seq<Sym>)
    requires PairsCovered(st, fo, alpha) && Grown(fo, fo')
    ensures PairsCovered(st, fo', alpha)
  {
    forall i, j | 0 <= i < j < |alpha| && j == i + 1 && alpha[i] < |fo'| && alpha[j] < |st|
      ensures Elems(st[alpha[j]]) <= Elems(fo'[alpha[i]])
    {
      assert Elems(st[alpha[j]]) <= Elems(fo[alpha[i]]);
      assert fo[alpha[i]] <= fo'[alpha[i]];
    }
  }

  /** The follow list of s has been pushed to the last element of each of its first n rules. */
  ghost predicate Pushed(R: Rules, fo: seq<seq<Sym>>, s: Sym, n: nat)
    requires s < |R| && n <= |R[s]| && |fo| == |R| && Closed(R)
  {
    forall k :: 0 <= k < n && R[s][k] != [] ==> Elems(fo[s]) <= Elems(fo[R[s][k][|R[s][k]| - 1]])
  }

  /** getfollows, first pass: only rules of marked symbols. */
  method FollowsWithinRules(g: Grammar, ghost h: Sym)
    requires Lists(g) && Closed(g.rules) && SoundStarts(g.rules, g.starter) && SoundFollows(g.rules, h, g.follows)
    requires forall s: Sym :: s < |g.rules| && g.state[s] == Touched ==> Reaches(g.rules, h, s)
    modifies g`starter, g`follows, g`changed
    ensures Lists(g) && g.starter == old(g.starter) && SoundFollows(g.rules, h, g.follows)
    ensures forall s: Sym :: s < |g.rules| && g.state[s] == Touched ==>
      AllPairsCovered(g.rules, g.starter, g.follows, s, |g.rules[s]|)
  {
    ghost var R, st := g.rules, g.starter;
    var s := 0;
    while s < |g.rules|
      invariant 0 <= s <= |R| && Lists(g) && g.starter == st && SoundFollows(R, h, g.follows)
      invariant forall t: Sym :: t < s && g.state[t] == Touched ==> AllPairsCovered(R, st, g.follows, t, |R[t]|)
    {
      if g.state[s] == Touched {
        ghost var fo := g.follows;
        FollowsWithinRulesOf(g, h, s);
        forall t: Sym | t < s && g.state[t] == Touched ensures AllPairsCovered(R, st, g.follows, t, |R[t]|) {
          forall k | 0 <= k < |R[t]| ensures PairsCovered(st, g.follows, R[t][k]) {
            CoveredGrows(st, fo, g.follows, R[t][k]);
          }
        }
      }
      s := s + 1;
    }
  }

  /** What the first pass keeps while it works on s, of whose rules it has done p. */
  ghost predicate Pairing(R: Rules, h: Sym, st: seq<seq<Sym>>, fo: seq<seq<Sym>>, now: seq<seq<Sym>>, s: Sym, p: nat)
    requires s < |R| && p <= |R[s]|
  {
    SoundFollows(R, h, now) && Grown(fo, now) && AllPairsCovered(R, st, now, s, p)
  }

  lemma PairsNone(R: Rules, h: Sym, st: seq<seq<Sym>>, fo: seq<seq<Sym>>, now: seq<seq<Sym>>, s: Sym, p: nat)
    requires s < |R| && p < |R[s]| && R[s][p] == [] && Pairing(R, h, st, fo, now, s, p)
    ensures Pairing(R, h, st, fo, now, s, p + 1)
  {
  }

  /** One more rule of s done. */
  lemma PairsOne(R: Rules, h: Sym, st: seq<seq<Sym>>, fo: seq<seq<Sym>>, now: seq<seq<Sym>>, next: seq<seq<Sym>>,
      s: Sym, p: nat)
    requires Closed(R) && SoundStarts(R, st) && Reaches(R, h, s)
    requires s < |R| && p < |R[s]| && R[s][p] != [] && Pairing(R, h, st, fo, now, s, p)
    requires PairGains(st, now, next, R[s][p], |R[s][p]| - 1)
    ensures Pairing(R, h, st, fo, next, s, p + 1)
  {
    PairsSound(R, h, st, now, next, s, R[s][p]);
    GrownTrans(fo, now, next);
    forall k | 0 <= k < p ensures PairsCovered(st, next, R[s][k]) {
      CoveredGrows(st, now, next, R[s][k]);
    }
  }

  method FollowsWithinRulesOf(g: Grammar, ghost h: Sym, s: Sym)
    requires Lists(g) && Closed(g.rules) && SoundStarts(g.rules, g.starter) && SoundFollows(g.rules, h, g.follows)
    requires s < |g.rules| && Reaches(g.rules, h, s)
    modifies g`starter, g`follows, g`changed
    ensures Lists(g) && g.starter == old(g.starter) && SoundFollows(g.rules, h, g.follows)
    ensures Grown(old(g.follows), g.follows) && AllPairsCovered(g.rules, g.starter, g.follows, s, |g.rules[s]|)
  {
    ghost var R, st, fo := g.rules, g.starter, g.follows;
    var p := 0;
    while p < |g.rules[s]|
      invariant 0 <= p <= |R[s]| && Lists(g) && g.starter == st && Pairing(R, h, st, fo, g.follows, s, p)
    {
      var body := g.rules[s][p];
      if body != [] {
        ghost var now := g.follows;
        GetFollowRule(g, body);
        PairsOne(R, h, st, fo, now, g.follows, s, p);
      } else {
        PairsNone(R, h, st, fo, g.follows, s, p);
      }
      p := p + 1;
    }
  }

  lemma PushStep(fo: seq<seq<Sym>>, now: seq<seq<Sym>>, l: Sym, s: Sym)
    requires Grown(fo, now) && l < |now| && s < |now|
    ensures var next := now[l := Merge(now[l], now[s])];
      && Grown(fo, next) && (next == fo <==> now == fo && Merge(now[l], now[s]) == now[l])
      && (next == now ==> Elems(now[s]) <= Elems(now[l]))
  {
    MergeUnion(now[l], now[s]);
    var next := now[l := Merge(now[l], now[s])];
    assert Grown(now, next);
    GrownTrans(fo, now, next);
    assert next == now <==> next[l] == now[l];
  }

  /** What the second pass keeps while it works on s, of whose rules it has done p. */
  ghost predicate Pushing(R: Rules, h: Sym, fo: seq<seq<Sym>>, now: seq<seq<Sym>>, s: Sym, p: nat)
    requires s < |R| && p <= |R[s]| && |fo| == |R| && Closed(R)
  {
    SoundFollows(R, h, now) && Grown(fo, now) && (now == fo ==> Pushed(R, fo, s, p))
  }

  lemma PushOne(R: Rules, h: Sym, fo: seq<seq<Sym>>, now: seq<seq<Sym>>, s: Sym, p: nat)
    requires Closed(R) && s < |R| && p < |R[s]| && |fo| == |R| && Pushing(R, h, fo, now, s, p)
    ensures R[s][p] == [] ==> Pushing(R, h, fo, now, s, p + 1)
    ensures R[s][p] != [] ==>
      var l := R[s][p][|R[s][p]| - 1];
      var next := now[l := Merge(now[l], now[s])];
      Pushing(R, h, fo, next, s, p + 1) && (next == fo <==> now == fo && Merge(now[l], now[s]) == now[l])
  {
    var body := R[s][p];
    if body != [] {
      PushSound(R, h, now, s, body);
      PushStep(fo, now, body[|body| - 1], s);
    }
  }

  /** getfollows, one round of the second pass over the rules of s. */
  method PushFollowsOf(g: Grammar, ghost h: Sym, s: Sym)
    requires Lists(g) && Closed(g.rules) && s < |g.rules| && SoundFollows(g.rules, h, g.follows)
    modifies g`starter, g`follows, g`changed
    ensures Lists(g) && g.starter == old(g.starter) && SoundFollows(g.rules, h, g.follows)
    ensures Grown(old(g.follows), g.follows)
    ensures g.changed == (old(g.changed) || g.follows != old(g.follows))
    ensures g.follows == old(g.follows) ==> Pushed(g.rules, g.follows, s, |g.rules[s]|)
  {
    ghost var R, fo := g.rules, g.follows;
    var p := 0;
    while p < |g.rules[s]|
      invariant 0 <= p <= |R[s]| && Lists(g) && g.starter == old(g.starter)
      invariant Pushing(R, h, fo, g.follows, s, p) && g.changed == (old(g.changed) || g.follows != fo)
    {
      PushOne(R, h, fo, g.follows, s, p);
      PushFollow(g, g.rules[s][p], s);
      p := p + 1;
    }
  }

  ghost predicate AllPushed(R: Rules, state: seq<State>, fo: seq<seq<Sym>>, n: nat)
    requires n <= |R| == |state| == |fo| && Closed(R)
  {
    forall s: Sym :: s < n && state[s] == Touched ==> Pushed(R, fo, s, |R[s]|)
  }

  /** One round of the second pass. */
  method PushRound(g: Grammar, ghost h: Sym)
    requires Lists(g) && Closed(g.rules) && SoundFollows(g.rules, h, g.follows)
    modifies g`starter, g`follows, g`changed
    ensures Lists(g) && g.starter == old(g.starter) && SoundFollows(g.rules, h, g.follows)
    ensures Grown(old(g.follows), g.follows) && (g.changed <==> g.follows != old(g.follows))
    ensures !g.changed ==> AllPushed(g.rules, g.state, g.follows, |g.rules|)
  {
    g.changed := false;
    ghost var fo := g.follows;
    var s := 0;
    while s < |g.rules|
      invariant 0 <= s <= |g.rules| && Lists(g) && g.starter == old(g.starter) && SoundFollows(g.rules, h, g.follows)
      invariant Grown(fo, g.follows) && (g.changed <==> g.follows != fo)
      invariant !g.changed ==> AllPushed(g.rules, g.state, fo, s)
    {
      if g.state[s] == Touched {
        ghost var now := g.follows;
        PushFollowsOf(g, h, s);
        GrownTrans(fo, now, g.follows);
      }
      s := s + 1;
    }
  }

  method GetFollows(g: Grammar, ghost h: Sym)
    requires Lists(g) && Closed(g.rules) && SoundStarts(g.rules, g.starter)
    requires forall s: Sym :: s < |g.rules| && g.state[s] == Touched ==> Reaches(g.rules, h, s)
    requires forall s: Sym :: s < |g.rules| ==> g.follows[s] == []
    modifies g`starter, g`follows, g`changed
    ensures Lists(g) && g.starter == old(g.starter) && SoundFollows(g.rules, h, g.follows)
    ensures FollowFixed(g.rules, g.state, g.starter, g.follows)
  {
    ghost var n := |g.rules|;
    FollowsWithinRules(g, h);
    ghost var first := g.follows;
    g.changed := true;
    TotalBound(g.follows, n);
    while g.changed
      invariant Lists(g) && g.starter == old(g.starter) && SoundFollows(g.rules, h, g.follows)
      invariant Grown(first, g.follows) && TotalLength(g.follows) <= n * n
      invariant !g.changed ==> AllPushed(g.rules, g.state, g.follows, n)
      decreases n * n - TotalLength(g.follows), g.changed
    {
      ghost var fo := g.follows;
      PushRound(g, h);
      TotalGrows(fo, g.follows);
      TotalBound(g.follows, n);
      GrownTrans(first, fo, g.follows);
    }
    AllCoveredGrows(g.rules, g.state, g.starter, first, g.follows);
  }

  lemma AllCoveredGrows(R: Rules, state: seq<State>, st: seq<seq<Sym>>, fo: seq<seq<Sym>>, fo': seq<seq<Sym>>)
    requires |state| == |st| == |fo| == |R| && Closed(R) && Grown(fo, fo') && AllPushed(R, state, fo', |R|)
    requires forall s: Sym :: s < |R| && state[s] == Touched ==> AllPairsCovered(R, st, fo, s, |R[s]|)
    ensures FollowFixed(R, state, st, fo')
  {
    forall s: Sym | s < |R| && state[s] == Touched ensures AllPairsCovered(R, st, fo', s, |R[s]|) {
      forall k | 0 <= k < |R[s]| ensures PairsCovered(st, fo', R[s][k]) {
        CoveredGrows(st, fo, fo', R[s][k]);
      }
    }
  }

  /** Neither pass of getfollows would add anything. */
  ghost predicate FollowFixed(R: Rules, state: seq<State>, st: seq<seq<Sym>>, fo: seq<seq<Sym>>)
    requires Closed(R)
  {
    && |R| == |state| == |st| == |fo|
    && forall s: Sym {:trigger Pushed(R, fo, s, |R[s]|)} {:trigger AllPairsCovered(R, st, fo, s, |R[s]|)} ::
      s < |R| && state[s] == Touched ==> AllPairsCovered(R, st, fo, s, |R[s]|) && Pushed(R, fo, s, |R[s]|)
  }

  /** At the fixed point derivation keeps neighbours covered: the covering of the roots is handed to
      the yield, through the last symbol on the left and the first symbol on the right of each seam. */
  lemma {:induction false} FollowOfYield(R: Rules, state: seq<State>, st: seq<seq<Sym>>, fo: seq<seq<Sym>>, f: Forest)
    requires MarksClosed(R, state) && NonNullMarked(R, state) && |st| == |R| && Closed(R)
    requires StartAllFixed(R, state, st) && FollowFixed(R, state, st, fo)
    requires Valid(R, f) && AllMarked(state, Roots(f)) && PairsCovered(st, fo, Roots(f))
    ensures Handed(state, st, fo, Roots(f), Yield(f))
  {
    match f
    case Nil =>
    case Leaf(t, rest) =>
      RestOfRoots(state, st, fo, t, rest);
      FollowOfYield(R, state, st, fo, rest);
      HandedCons(R, state, st, fo, t, [t], rest);
    case Node(s, kids, rest) =>
      assert Roots(kids) in RulesOf(R, s) && Valid(R, kids) && Valid(R, rest);
      RestOfRoots(state, st, fo, s, rest);
      FollowOfYield(R, state, st, fo, rest);
      RuleMarked(R, state, s, Roots(kids));
      RuleCovered(R, state, st, fo, s, Roots(kids));
      FollowOfYield(R, state, st, fo, kids);
      HandedCons(R, state, st, fo, s, Yield(kids), rest);
  }

  /** What the yield y owes to the roots alpha. */
  ghost predicate Handed(state: seq<State>, st: seq<seq<Sym>>, fo: seq<seq<Sym>>, alpha: seq<Sym>, y: seq<Sym>) {
    && AllMarked(state, y) && PairsCovered(st, fo, y) && (alpha == [] <==> y == [])
    && (alpha != [] && alpha[|alpha| - 1] < |fo| && y[|y| - 1] < |fo| ==>
        Elems(fo[alpha[|alpha| - 1]]) <= Elems(fo[y[|y| - 1]]))
  }

  lemma HandedCons(R: Rules, state: seq<State>, st: seq<seq<Sym>>, fo: seq<seq<Sym>>, x: Sym, w: seq<Sym>, rest: Forest)
    requires MarksClosed(R, state) && NonNullMarked(R, state) && |st| == |fo| == |R| && Closed(R)
    requires StartAllFixed(R, state, st)
    requires Valid(R, rest) && AllMarked(state, Roots(rest)) && AllMarked(state, w)
    requires x < |R| && PairsCovered(st, fo, [x] + Roots(rest))
    requires w != [] && PairsCovered(st, fo, w) && Elems(fo[x]) <= Elems(fo[w[|w| - 1]])
    requires Handed(state, st, fo, Roots(rest), Yield(rest))
    ensures Handed(state, st, fo, [x] + Roots(rest), w + Yield(rest))
  {
    Seam(R, state, st, fo, x, w, rest);
    HandedSeam(state, st, fo, x, w, Roots(rest), Yield(rest));
  }

  lemma HandedSeam(state: seq<State>, st: seq<seq<Sym>>, fo: seq<seq<Sym>>, x: Sym, w: seq<Sym>, alpha: seq<Sym>,
      y: seq<Sym>)
    requires w != [] && AllMarked(state, w) && x < |fo| && w[|w| - 1] < |fo| && Elems(fo[x]) <= Elems(fo[w[|w| - 1]])
    requires Handed(state, st, fo, alpha, y) && PairsCovered(st, fo, w + y)
    ensures Handed(state, st, fo, [x] + alpha, w + y)
  {
    var z := w + y;
    forall i | 0 <= i < |z| ensures z[i] < |state| && state[z[i]] == Touched {
      assert z[i] == if i < |w| then w[i] else y[i - |w|];
    }
    if alpha != [] {
      assert ([x] + alpha)[|alpha|] == alpha[|alpha| - 1] && z[|z| - 1] == y[|y| - 1];
    }
  }

  lemma RuleCovered(R: Rules, state: seq<State>, st: seq<seq<Sym>>, fo: seq<seq<Sym>>, s: Sym, body: Rule)
    requires NonNullMarked(R, state) && Closed(R) && FollowFixed(R, state, st, fo)
    requires s < |R| && state[s] == Touched && body in R[s]
    ensures PairsCovered(st, fo, body) && body != [] && body[|body| - 1] < |fo|
    ensures Elems(fo[s]) <= Elems(fo[body[|body| - 1]])
  {
    var k :| 0 <= k < |R[s]| && R[s][k] == body;
    assert AllPairsCovered(R, st, fo, s, |R[s]|) && Pushed(R, fo, s, |R[s]|);
    assert PairsCovered(st, fo, R[s][k]);
  }

  lemma RestOfRoots(state: seq<State>, st: seq<seq<Sym>>, fo: seq<seq<Sym>>, x: Sym, rest: Forest)
    requires AllMarked(state, [x] + Roots(rest)) && PairsCovered(st, fo, [x] + Roots(rest))
    ensures x < |state| && state[x] == Touched && AllMarked(state, Roots(rest)) && PairsCovered(st, fo, Roots(rest))
  {
    var all := [x] + Roots(rest);
    assert all[0] == x;
    forall i | 0 <= i < |Roots(rest)| ensures Roots(rest)[i] == all[i + 1] {}
    RestCovered(st, fo, x, Roots(rest));
  }

  lemma RestCovered(st: seq<seq<Sym>>, fo: seq<seq<Sym>>, x: Sym, rest: seq<Sym>)
    requires PairsCovered(st, fo, [x] + rest)
    ensures PairsCovered(st, fo, rest)
  {
    var all := [x] + rest;
    forall i, j | 0 <= i < j < |rest| && j == i + 1 && rest[i] < |fo| && rest[j] < |st|
      ensures Elems(st[rest[j]]) <= Elems(fo[rest[i]])
    {
      assert all[i + 1] == rest[i] && all[j + 1] == rest[j];
    }
  }

  /** The yield w of a root s joined to the yield of the trees to its right. */
  lemma Seam(R: Rules, state: seq<State>, st: seq<seq<Sym>>, fo: seq<seq<Sym>>, s: Sym, w: seq<Sym>, rest: Forest)
    requires MarksClosed(R, state) && NonNullMarked(R, state) && |st| == |fo| == |R| && Closed(R)
    requires StartAllFixed(R, state, st)
    requires Valid(R, rest) && AllMarked(state, Roots(rest)) && AllMarked(state, w)
    requires s < |R| && PairsCovered(st, fo, [s] + Roots(rest))
    requires w != [] && PairsCovered(st, fo, w) && Elems(fo[s]) <= Elems(fo[w[|w| - 1]])
    requires PairsCovered(st, fo, Yield(rest))
    ensures PairsCovered(st, fo, w + Yield(rest))
  {
    if Yield(rest) == [] {
      assert w + Yield(rest) == w;
    } else {
      assert !rest.Nil?;
      StartOfYield(R, state, st, rest);
      var all := [s] + Roots(rest);
      assert all[0] == s && all[1] == Roots(rest)[0];
      assert Elems(st[all[1]]) <= Elems(fo[all[0]]);
      Joined(st, fo, w, Yield(rest));
    }
  }

  lemma Joined(st: seq<seq<Sym>>, fo: seq<seq<Sym>>, w: seq<Sym>, y: seq<Sym>)
    requires w != [] && y != [] && PairsCovered(st, fo, w) && PairsCovered(st, fo, y)
    requires w[|w| - 1] < |fo| && y[0] < |st| && Elems(st[y[0]]) <= Elems(fo[w[|w| - 1]])
    ensures PairsCovered(st, fo, w + y)
  {
    var z := w + y;
    forall i, j | 0 <= i < j < |z| && j == i + 1 && z[i] < |fo| && z[j] < |st|
      ensures Elems(st[z[j]]) <= Elems(fo[z[i]])
    {
      if j < |w| {
        assert z[i] == w[i] && z[j] == w[j];
      } else if i >= |w| {
        assert z[i] == y[i - |w|] && z[j] == y[j - |w|];
      }
    }
  }

  /** The follow set of a marked symbol is exact. */
  lemma FollowsExact(R: Rules, state: seq<State>, st: seq<seq<Sym>>, fo: seq<seq<Sym>>, h: Sym, x: Sym, t: Sym)
    requires MarksClosed(R, state) && NonNullMarked(R, state) && |st| == |R| && Closed(R)
    requires StartAllFixed(R, state, st) && FollowFixed(R, state, st, fo)
    requires SoundFollows(R, h, fo) && h < |R| && state[h] == Touched && x < |R|
    ensures t in fo[x] <==> Adjacent(R, h, x, t)
  {
    if Adjacent(R, h, x, t) {
      var u, v :| Derives(R, [h], u + [x, t] + v);
      var y := u + [x, t] + v;
      var f :| Derivation(R, f, [h], y);
      FollowOfYield(R, state, st, fo, f);
      assert y[|u|] == x && y[|u| + 1] == t;
      assert t < |R| && state[t] == Touched && StartFixed(R, st, t);
      assert Elems(st[y[|u| + 1]]) <= Elems(fo[y[|u|]]);
      assert t in Elems(st[t]);
    }
  }

  // ----- the interface -----

  /** startfollow: for a grammar whose reachable productions are not null, the start and follow sets
      mean what their names say. */
  method StartAndFollow(g: Grammar)
    requires Lists(g) && Closed(g.rules)
    requires forall s: Sym :: s < |g.rules| ==> g.starter[s] == [] && g.follows[s] == []
    requires g.head.Some? ==> g.head.value < |g.rules| && NonNullFrom(g.rules, g.head.value)
    modifies g`state, g`starter, g`follows, g`changed
    ensures Lists(g)
    ensures g.head.Some? ==> forall a: Sym, t :: a < |g.rules| && Reaches(g.rules, g.head.value, a) ==>
      && (t in g.starter[a] <==> Begins(g.rules, a, t))
      && (t in g.follows[a] <==> Adjacent(g.rules, g.head.value, a, t))
    ensures forall a: Sym :: a < |g.rules| && !(g.head.Some? && Reaches(g.rules, g.head.value, a)) ==>
      g.state[a] == Untouched
  {
    MarkReachable(g);
    ghost var R, h := g.rules, if g.head.Some? then g.head.value else 0;
    forall s: Sym, t: Sym | s < |R| && g.state[s] == Touched && Refers(R, s, t)
      ensures t < |R| && g.state[t] == Touched
    {
      ReachesThen(R, h, s, t);
    }
    GetStarts(g);
    ghost var st := g.starter;
    GetFollows(g, h);
    if g.head.Some? {
      ReachesSelf(R, h);
      forall a: Sym, t | a < |R| && Reaches(R, h, a)
        ensures (t in g.starter[a] <==> Begins(R, a, t)) && (t in g.follows[a] <==> Adjacent(R, h, a, t))
      {
        StartsExact(R, g.state, g.starter, a, t);
        FollowsExact(R, g.state, g.starter, g.follows, h, a, t);
      }
    }
  }
}
