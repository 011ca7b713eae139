/** deebnf.c: `process`, `addemptyrule`, `makeiterative` and the interface `deebnf`. */
module Processing {
  import opened Wrappers
  import opened Grammars
  import opened Deebnfing
  import opened Ebnf

  // ----- rules that represent an EBNF expression -----

  /** The body of a plain rule stands for the items: symbols for themselves, groups as a symbol, not below
      lo, whose rules stand for the alternatives. */
  ghost predicate RepItems(R: Rules, e: Sym, lo: nat, i: Items, body: Rule)
    decreases i, 0
  {
    match i
    case End => body == []
    case Use(s, tail) => body != [] && body[0] == s && RepItems(R, e, lo, tail, body[1..])
    case Group(k, a, tail) => body != [] && RepGroup(R, e, lo, k, a, body[0]) && RepItems(R, e, lo, tail, body[1..])
  }

  /** An option has the extra rule e, a repetition moreover comes back to itself. */
  ghost predicate RepGroup(R: Rules, e: Sym, lo: nat, k: Kind, a: Alts, ns: Sym)
    decreases a, 1
  {
    lo <= ns < |R| &&
    match k
    case Paren => RepAlts(R, e, ns + 1, a, R[ns], [])
    case Square => R[ns] != [] && R[ns][0] == [e] && RepAlts(R, e, ns + 1, a, R[ns][1..], [])
    case Curly => R[ns] != [] && R[ns][0] == [e] && RepAlts(R, e, ns + 1, a, R[ns][1..], [ns])
  }

  ghost predicate RepAlts(R: Rules, e: Sym, lo: nat, a: Alts, rows: seq<Rule>, suffix: Rule)
    decreases a, 0
  {
    match a
    case Only(i) => |rows| == 1 && EndsWith(rows[0], suffix) && RepItems(R, e, lo, i, Stem(rows[0], suffix))
    case Either(i, more) =>
      && |rows| > 1 && EndsWith(rows[0], suffix) && RepItems(R, e, lo, i, Stem(rows[0], suffix))
      && RepAlts(R, e, lo, more, rows[1..], suffix)
  }

  predicate EndsWith(row: Rule, suffix: Rule) {
    |suffix| <= |row| && row[|row| - |suffix|..] == suffix
  }

  function Stem(row: Rule, suffix: Rule): Rule
    requires EndsWith(row, suffix)
  {
    row[..|row| - |suffix|]
  }

  /** R' has the symbols of R from lo on, with the same rules. */
  ghost predicate Extends(R: Rules, R': Rules, lo: nat) {
    |R| <= |R'| && forall t {:trigger R'[t]} :: lo <= t < |R| ==> R'[t] == R[t]
  }

  lemma {:induction false} RepItemsKept(R: Rules, R': Rules, e: Sym, lo: nat, i: Items, body: Rule)
    requires RepItems(R, e, lo, i, body) && Extends(R, R', lo)
    ensures RepItems(R', e, lo, i, body)
    decreases i, 0
  {
    match i
    case End =>
    case Use(_, tail) => RepItemsKept(R, R', e, lo, tail, body[1..]);
    case Group(k, a, tail) =>
      RepGroupKept(R, R', e, lo, k, a, body[0]);
      RepItemsKept(R, R', e, lo, tail, body[1..]);
  }

  lemma {:induction false} RepGroupKept(R: Rules, R': Rules, e: Sym, lo: nat, k: Kind, a: Alts, ns: Sym)
    requires RepGroup(R, e, lo, k, a, ns) && Extends(R, R', lo)
    ensures RepGroup(R', e, lo, k, a, ns)
    decreases a, 1
  {
    assert R'[ns] == R[ns] && Extends(R, R', ns + 1);
    match k
    case Paren => RepAltsKept(R, R', e, ns + 1, a, R[ns], []);
    case Square => RepAltsKept(R, R', e, ns + 1, a, R[ns][1..], []);
    case Curly => RepAltsKept(R, R', e, ns + 1, a, R[ns][1..], [ns]);
  }

  lemma {:induction false} RepAltsKept(R: Rules, R': Rules, e: Sym, lo: nat, a: Alts, rows: seq<Rule>, suffix: Rule)
    requires RepAlts(R, e, lo, a, rows, suffix) && Extends(R, R', lo)
    ensures RepAlts(R', e, lo, a, rows, suffix)
    decreases a, 0
  {
    match a
    case Only(i) => RepItemsKept(R, R', e, lo, i, Stem(rows[0], suffix));
    case Either(i, more) =>
      RepItemsKept(R, R', e, lo, i, Stem(rows[0], suffix));
      RepAltsKept(R, R', e, lo, more, rows[1..], suffix);
  }

  lemma {:induction false} RepItemsLower(R: Rules, e: Sym, lo: nat, lo': nat, i: Items, body: Rule)
    requires RepItems(R, e, lo, i, body) && lo' <= lo
    ensures RepItems(R, e, lo', i, body)
  {
    match i
    case End =>
    case Use(_, tail) => RepItemsLower(R, e, lo, lo', tail, body[1..]);
    case Group(k, a, tail) => RepItemsLower(R, e, lo, lo', tail, body[1..]);
  }

  // ----- progress through the rules of one symbol -----

  /** The rules before the current one and the part of it already passed stand for what comes before rem in
      a: whatever may stand for rem completes them. */
  ghost predicate Continues(R: Rules, e: Sym, lo: nat, a: Alts, rem: Alts, rows: seq<Rule>, cur: Rule) {
    forall R', x {:trigger RepAlts(R', e, lo, rem, x, [])} ::
      Extends(R, R', lo) && RepAlts(R', e, lo, rem, x, []) ==> RepAlts(R', e, lo, a, rows + [cur + x[0]] + x[1..], [])
  }

  lemma ContinuesStart(R: Rules, e: Sym, lo: nat, a: Alts)
    ensures Continues(R, e, lo, a, a, [], [])
  {
    forall R', x | Extends(R, R', lo) && RepAlts(R', e, lo, a, x, [])
      ensures RepAlts(R', e, lo, a, [] + [[] + x[0]] + x[1..], [])
    {
      assert [] + x[0] == x[0] && [] + [x[0]] + x[1..] == x;
    }
  }

  lemma ContinuesExtends(R: Rules, R1: Rules, e: Sym, lo: nat, a: Alts, rem: Alts, rows: seq<Rule>, cur: Rule)
    requires Continues(R, e, lo, a, rem, rows, cur) && Extends(R, R1, lo)
    ensures Continues(R1, e, lo, a, rem, rows, cur)
  {
    forall R', x | Extends(R1, R', lo) && RepAlts(R', e, lo, rem, x, [])
      ensures RepAlts(R', e, lo, a, rows + [cur + x[0]] + x[1..], [])
    {
      assert Extends(R, R', lo) by {
        forall t | lo <= t < |R| ensures R'[t] == R[t] { assert R1[t] == R[t]; }
      }
    }
  }

  function WithItems(rem: Alts, i: Items): Alts {
    match rem
    case Only(_) => Only(i)
    case Either(_, more) => Either(i, more)
  }

  /** The symbol t stands for the first of the items. */
  ghost predicate Stands(R: Rules, e: Sym, lo: nat, i: Items, t: Sym) {
    match i
    case End => false
    case Use(s, _) => t == s
    case Group(k, b, _) => RepGroup(R, e, lo, k, b, t)
  }

  /** Rows with the symbol t put before them. */
  function Headed(t: Sym, x: seq<Rule>): seq<Rule>
    requires x != []
  {
    [[t] + x[0]] + x[1..]
  }

  lemma HeadedRows(rows: seq<Rule>, cur: Rule, t: Sym, x: seq<Rule>)
    requires x != []
    ensures var y := Headed(t, x); rows + [cur + y[0]] + y[1..] == rows + [(cur + [t]) + x[0]] + x[1..]
  {
    var y := Headed(t, x);
    ConcatAssoc(cur, [t], x[0]);
    assert y[0] == [t] + x[0] && y[1..] == x[1..];
  }

  lemma StandsKept(R: Rules, R': Rules, e: Sym, lo: nat, i: Items, t: Sym)
    requires Stands(R, e, lo, i, t) && Extends(R, R', lo)
    ensures Stands(R', e, lo, i, t)
  {
    if i.Group? { RepGroupKept(R, R', e, lo, i.kind, i.alts, t); }
  }

  /** What stands for the rest of an alternative, with a symbol for the first item put before it. */
  lemma RepAltsItem(R: Rules, e: Sym, lo: nat, rem: Alts, x: seq<Rule>, t: Sym)
    requires Stands(R, e, lo, rem.items, t) && RepAlts(R, e, lo, WithItems(rem, rem.items.tail), x, [])
    ensures x != [] && RepAlts(R, e, lo, rem, Headed(t, x), [])
  {
    var y := Headed(t, x);
    assert Stem(x[0], []) == x[0] && Stem(y[0], []) == [t] + x[0] && y[0][1..] == x[0] && y[1..] == x[1..];
  }

  lemma ContinuesWith(R: Rules, R': Rules, e: Sym, lo: nat, a: Alts, rem: Alts, rows: seq<Rule>, cur: Rule,
      x: seq<Rule>)
    requires Continues(R, e, lo, a, rem, rows, cur) && Extends(R, R', lo) && RepAlts(R', e, lo, rem, x, [])
    ensures x != [] && RepAlts(R', e, lo, a, rows + [cur + x[0]] + x[1..], [])
  {
  }

  /** One item, now the symbol t, is passed. */
  lemma ContinuesItem(R: Rules, e: Sym, lo: nat, a: Alts, rem: Alts, rows: seq<Rule>, cur: Rule, t: Sym)
    requires Continues(R, e, lo, a, rem, rows, cur)
    requires Stands(R, e, lo, rem.items, t)
    ensures Continues(R, e, lo, a, WithItems(rem, rem.items.tail), rows, cur + [t])
  {
    var rem' := WithItems(rem, rem.items.tail);
    forall R', x | Extends(R, R', lo) && RepAlts(R', e, lo, rem', x, [])
      ensures RepAlts(R', e, lo, a, rows + [(cur + [t]) + x[0]] + x[1..], [])
    {
      StandsKept(R, R', e, lo, rem.items, t);
      RepAltsItem(R', e, lo, rem, x, t);
      ContinuesWith(R, R', e, lo, a, rem, rows, cur, Headed(t, x));
      HeadedRows(rows, cur, t, x);
    }
  }

  /** An alternative is complete and another one follows. */
  lemma ContinuesNext(R: Rules, e: Sym, lo: nat, a: Alts, more: Alts, rows: seq<Rule>, cur: Rule)
    requires Continues(R, e, lo, a, Either(End, more), rows, cur)
    ensures Continues(R, e, lo, a, more, rows + [cur], [])
  {
    forall R', x | Extends(R, R', lo) && RepAlts(R', e, lo, more, x, [])
      ensures RepAlts(R', e, lo, a, rows + [cur] + [[] + x[0]] + x[1..], [])
    {
      var y := [[]] + x;
      assert y[1..] == x && Stem(y[0], []) == [];
      assert RepAlts(R', e, lo, Either(End, more), y, []);
      assert cur + [] == cur && [] + x[0] == x[0];
      assert rows + [cur] + [x[0]] + x[1..] == rows + [cur] + x;
    }
  }

  lemma ContinuesEnd(R: Rules, e: Sym, lo: nat, a: Alts, rows: seq<Rule>, cur: Rule)
    requires Continues(R, e, lo, a, Only(End), rows, cur)
    ensures RepAlts(R, e, lo, a, rows + [cur], [])
  {
    var x: seq<Rule> := [[]];
    assert Stem(x[0], []) == [] && RepAlts(R, e, lo, Only(End), x, []);
    assert cur + [] == cur && rows + [cur] + x[1..] == rows + [cur];
  }

  // ----- the layout of what remains -----

  /** The first production of what remains is null exactly when an alternative ends here. */
  lemma RestStart(m: Metas, rem: Alts)
    requires Plain(m, rem)
    ensures Flat(m, rem)[0] == [] <==> rem.items == End
    ensures rem.items == End ==> Flat(m, rem)[1..] == if rem.Only? then [] else Flat(m, rem.more)
  {
    ItemsNonNull(m, rem.items);
  }

  lemma RestUse(m: Metas, rem: Alts)
    requires Plain(m, rem) && rem.items.Use?
    ensures var f, f' := Flat(m, rem), Flat(m, WithItems(rem, rem.items.tail));
      && f[0] == [rem.items.s] + f'[0] && f[1..] == f'[1..]
      && !m.IsMeta(rem.items.s) && Plain(m, WithItems(rem, rem.items.tail))
  {
    var ft := FlatItems(m, rem.items.tail);
    assert Glue([[rem.items.s]], ft) == [[rem.items.s] + ft[0]] + ft[1..];
  }

  /** A group between what precedes its alternatives and the productions after its own. */
  lemma OpenGroup(l: Sym, fb: seq<Rule>, close: seq<Rule>, ft: seq<Rule>, more: seq<Rule>)
    requires fb != [] && close != [] && ft != []
    ensures var f := Glue([[l]], Glue(fb, Glue(close, ft))) + more;
      f[0] != [] && f[0][0] == l && [f[0][1..]] + f[1..] == Glue(fb, Glue(close, ft + more))
  {
    var body := Glue(fb, Glue(close, ft));
    var f := Glue([[l]], body) + more;
    assert Glue([[l]], body) == [[l] + body[0]] + body[1..];
    assert f[0][1..] == body[0] && f[1..] == body[1..] + more;
    assert [body[0]] + (body[1..] + more) == body + more;
    GlueMore(close, ft, more);
    GlueMore(fb, Glue(close, ft), more);
  }

  lemma RestGroup(m: Metas, rem: Alts)
    requires m.Distinct() && Plain(m, rem) && rem.items.Group?
    ensures var f, f', k, b := Flat(m, rem), Flat(m, WithItems(rem, rem.items.tail)), rem.items.kind, rem.items.alts;
      && f[0] != [] && f[0][0] == m.Left(k) && Plain(m, WithItems(rem, rem.items.tail)) && Plain(m, b) && NoEnd(b)
      && Scan(m.Left(k), m.Right(k), [f[0][1..]] + f[1..], 0) == Extract(Flat(m, b), f'[0], f'[1..], true)
  {
    var k, b, ft := rem.items.kind, rem.items.alts, FlatItems(m, rem.items.tail);
    var more := if rem.Only? then [] else Flat(m, rem.more);
    var f, f' := Flat(m, rem), Flat(m, WithItems(rem, rem.items.tail));
    assert f == FlatItems(m, rem.items) + more && f' == ft + more;
    OpenGroup(m.Left(k), Flat(m, b), [[m.Right(k)]], ft, more);
    ExtractGroup(m, k, b, f');
  }

  lemma GlueMore(x: seq<Rule>, y: seq<Rule>, z: seq<Rule>)
    requires x != [] && y != []
    ensures Glue(x, y + z) == Glue(x, y) + z
  {
    assert (y + z)[1..] == y[1..] + z;
  }

  // ----- bracket structure without a given expression -----

  /** The productions are the layout of an expression. */
  ghost predicate WellFormed(m: Metas, rows: seq<Rule>) {
    exists a :: Layout(m, a, rows)
  }

  ghost predicate Layout(m: Metas, a: Alts, rows: seq<Rule>) {
    Plain(m, a) && Flat(m, a) == rows
  }

  /** What the first element of a layout tells about the expression. */
  lemma FirstItem(m: Metas, rem: Alts, t: Sym)
    requires m.Distinct() && Plain(m, rem) && Flat(m, rem)[0] != [] && Flat(m, rem)[0][0] == t
    ensures !m.IsRight(t)
    ensures !m.IsLeft(t) ==> rem.items.Use? && rem.items.s == t
    ensures forall k :: t == m.Left(k) ==> rem.items.Group? && rem.items.kind == k
  {
    RestStart(m, rem);
    if rem.items.Use? { RestUse(m, rem); } else { RestGroup(m, rem); }
  }

  lemma {:induction false} NullEnd(m: Metas, a: Alts)
    requires NoneNull(Flat(m, a))
    ensures NoEnd(a)
  {
    match a
    case Only(i) =>
      assert FlatItems(m, i)[0] != [];
    case Either(i, more) =>
      var f := Flat(m, a);
      assert f[0] == FlatItems(m, i)[0] && f[|FlatItems(m, i)|..] == Flat(m, more);
      forall k | 0 <= k < |Flat(m, more)| ensures Flat(m, more)[k] != [] { assert f[|FlatItems(m, i)| + k] != []; }
      NullEnd(m, more);
  }

  lemma WellFormedUse(m: Metas, t: Sym, row: Rule, more: seq<Rule>)
    requires !m.IsMeta(t) && WellFormed(m, [row] + more)
    ensures WellFormed(m, [[t] + row] + more)
  {
    var a :| Layout(m, a, [row] + more);
    var b := WithItems(a, Use(t, a.items));
    RestUse(m, b);
    assert WithItems(b, b.items.tail) == a;
    var f := Flat(m, b);
    assert f == [f[0]] + f[1..] && ([row] + more)[1..] == more;
    assert Layout(m, b, [[t] + row] + more);
  }

  lemma WellFormedGroup(m: Metas, k: Kind, taken: seq<Rule>, tail: Rule, left: seq<Rule>)
    requires m.Distinct() && WellFormed(m, taken) && NoneNull(taken) && WellFormed(m, [tail] + left)
    ensures WellFormed(m, Glue([[m.Left(k)]], Glue(taken, Glue([[m.Right(k)]], [tail] + left))))
  {
    var b :| Layout(m, b, taken);
    NullEnd(m, b);
    var a :| Layout(m, a, [tail] + left);
    var c := WithItems(a, Group(k, b, a.items));
    var ft, more := FlatItems(m, a.items), if a.Only? then [] else Flat(m, a.more);
    var open, close := [[m.Left(k)]], [[m.Right(k)]];
    assert ft + more == [tail] + left;
    GlueMore(close, ft, more); GlueMore(taken, Glue(close, ft), more);
    GlueMore(open, Glue(taken, Glue(close, ft)), more);
    assert Flat(m, c) == Glue(open, Glue(taken, Glue(close, ft))) + more;
    assert Layout(m, c, Glue(open, Glue(taken, Glue(close, ft + more))));
  }

  /** A scan that finds its bracket takes the productions apart and loses nothing else. */
  lemma {:induction false} ScanParts(l: Sym, r: Sym, rows: seq<Rule>, nest: nat)
    requires rows != []
    ensures var x := Scan(l, r, rows, nest);
      x.found ==> rows == Glue(x.taken, Glue([[r]], [x.tail] + x.left))
  {
    var x := Scan(l, r, rows, nest);
    CloseInside(l, r, rows[0], nest);
    match Close(l, r, rows[0], nest)
    case Found(j) =>
      assert rows[0] == rows[0][..j] + ([r] + rows[0][j + 1..]);
      assert Glue([[r]], [x.tail] + x.left) == [[r] + x.tail] + x.left;
      assert rows == [rows[0]] + rows[1..];
    case NotFound(n) =>
      if |rows| > 1 && x.found {
        ScanParts(l, r, rows[1..], n);
        var y := Scan(l, r, rows[1..], n);
        ConcatGlue([rows[0]], y.taken, Glue([[r]], [x.tail] + x.left));
        assert rows == [rows[0]] + rows[1..];
      }
  }

  // ----- the state of the walk -----

  ghost predicate NoMeta(m: Metas, row: Rule) {
    forall i :: 0 <= i < |row| ==> !m.IsMeta(row[i])
  }

  ghost predicate BracketFree(m: Metas, rows: seq<Rule>) {
    forall k :: 0 <= k < |rows| ==> NoMeta(m, rows[k])
  }

  /** Of the symbols of R0 only s has changed; the new ones are free of brackets and marked. */
  ghost predicate Grown(m: Metas, R0: Rules, S0: seq<State>, R: Rules, S: seq<State>, s: Sym) {
    && s < |R0| == |S0| <= |R| == |S|
    && (forall t {:trigger R[t]} {:trigger S[t]} :: 0 <= t < |R0| && t != s ==> R[t] == R0[t] && S[t] == S0[t])
    && (forall t {:trigger R[t]} {:trigger S[t]} :: |R0| <= t < |R| ==> BracketFree(m, R[t]) && S[t] == Touched)
  }

  lemma GrownTrans(m: Metas, R0: Rules, S0: seq<State>, R: Rules, S: seq<State>, R1: Rules, S1: seq<State>, s: Sym)
    requires Grown(m, R0, S0, R, S, s) && Grown(m, R, S, R1, S1, s)
    ensures Grown(m, R0, S0, R1, S1, s) && Extends(R, R1, |R0|)
  {
    forall t | 0 <= t < |R0| && t != s
      ensures R1[t] == R0[t] && S1[t] == S0[t]
    {
      assert R[t] == R0[t] && S[t] == S0[t];
    }
    forall t | |R0| <= t < |R1| ensures BracketFree(m, R1[t]) && S1[t] == Touched {
      if t < |R| { assert R1[t] == R[t] && S1[t] == S[t]; }
    }
  }

  /** What is still to be walked: rule p from element e on, and the rules after it. */
  function RestOf(row: seq<Rule>, p: nat, e: nat): seq<Rule>
    requires p < |row| && e <= |row[p]|
  {
    [row[p][e..]] + row[p + 1..]
  }

  /** The walk has come to element e of rule p and left no bracket behind; at most n are ahead. */
  ghost predicate Walking(m: Metas, row: seq<Rule>, p: nat, e: nat, n: nat) {
    && p < |row| && e <= |row[p]| && BracketFree(m, row[..p]) && NoMeta(m, row[p][..e]) && RowLefts(m, row) <= n
  }

  /** What has been passed stands for what a has before rem, and rem is laid out ahead. */
  ghost predicate Tracking(m: Metas, R: Rules, empty: Option<Sym>, lo: nat, a: Alts, rem: Alts, row: seq<Rule>,
      p: nat, e: nat)
    requires p < |row| && e <= |row[p]|
  {
    empty.Some? && Layout(m, rem, RestOf(row, p, e)) && Continues(R, empty.value, lo, a, rem, row[..p], row[p][..e])
  }

  /** If what is ahead has proper brackets then so had the whole. */
  ghost predicate Parses(m: Metas, row0: seq<Rule>, rest: seq<Rule>) {
    WellFormed(m, rest) ==> WellFormed(m, row0)
  }

  // ----- one step of the walk -----

  lemma RestCounts(m: Metas, row: seq<Rule>, p: nat, e: nat)
    requires p < |row| && e < |row[p]|
    ensures RestOf(row, p, e) == [[row[p][e]] + row[p][e + 1..]] + row[p + 1..]
    ensures Size(RestOf(row, p, e)) == 1 + Size([row[p][e + 1..]] + row[p + 1..])
    ensures RowLefts(m, row) == RowLefts(m, row[..p]) + Lefts(m, row[p][..e]) + RowLefts(m, RestOf(row, p, e))
    ensures RowLefts(m, RestOf(row, p, e)) ==
      (if m.IsLeft(row[p][e]) then 1 else 0) + RowLefts(m, [row[p][e + 1..]] + row[p + 1..])
  {
    var rest := row[p][e + 1..];
    assert row[p][e..] == [row[p][e]] + rest && row[p] == row[p][..e] + row[p][e..];
    LeftsConcat(m, [row[p][e]], rest);
    LeftsConcat(m, row[p][..e], row[p][e..]);
    assert Lefts(m, [row[p][e]]) == (if m.IsLeft(row[p][e]) then 1 else 0) + Lefts(m, []);
    assert row == row[..p] + ([row[p]] + row[p + 1..]);
    RowsConcat(m, row[..p], [row[p]] + row[p + 1..]);
    assert ([row[p]] + row[p + 1..])[1..] == row[p + 1..];
    assert RestOf(row, p, e)[1..] == row[p + 1..] && ([rest] + row[p + 1..])[1..] == row[p + 1..];
  }

  lemma StepUse(m: Metas, R: Rules, empty: Option<Sym>, lo: nat, a: Alts, rem: Alts, row: seq<Rule>, p: nat, e: nat)
    requires m.Distinct() && p < |row| && e < |row[p]| && !m.IsMeta(row[p][e])
    requires Tracking(m, R, empty, lo, a, rem, row, p, e)
    ensures rem.items.Use? && Tracking(m, R, empty, lo, a, WithItems(rem, rem.items.tail), row, p, e + 1)
  {
    var t := row[p][e];
    RestCounts(m, row, p, e);
    FirstItem(m, rem, t);
    RestUse(m, rem);
    ContinuesItem(R, empty.value, lo, a, rem, row[..p], row[p][..e], t);
    assert row[p][..e + 1] == row[p][..e] + [t];
    var f' := Flat(m, WithItems(rem, rem.items.tail));
    assert f' == [f'[0]] + f'[1..] && ([t] + f'[0])[1..] == f'[0] && ([t] + row[p][e + 1..])[1..] == row[p][e + 1..];
    assert RestOf(row, p, e)[1..] == row[p + 1..];
  }

  lemma StepUseParses(m: Metas, row0: seq<Rule>, row: seq<Rule>, p: nat, e: nat)
    requires p < |row| && e < |row[p]| && !m.IsMeta(row[p][e]) && Parses(m, row0, RestOf(row, p, e))
    ensures Parses(m, row0, RestOf(row, p, e + 1))
  {
    if WellFormed(m, RestOf(row, p, e + 1)) {
      WellFormedUse(m, row[p][e], row[p][e + 1..], row[p + 1..]);
      assert row[p][e..] == [row[p][e]] + row[p][e + 1..];
    }
  }

  lemma StepStray(m: Metas, R: Rules, empty: Option<Sym>, lo: nat, a: Alts, rem: Alts, row: seq<Rule>, p: nat, e: nat)
    requires m.Distinct() && p < |row| && e < |row[p]| && m.IsRight(row[p][e])
    ensures !Tracking(m, R, empty, lo, a, rem, row, p, e)
  {
    if Tracking(m, R, empty, lo, a, rem, row, p, e) {
      FirstItem(m, rem, row[p][e]);
    }
  }

  lemma StepGroup(m: Metas, R: Rules, R': Rules, empty: Option<Sym>, lo: nat, a: Alts, rem: Alts, row: seq<Rule>,
      p: nat, e: nat, k: Kind, ns: Sym)
    requires m.Distinct() && p < |row| && e < |row[p]| && row[p][e] == m.Left(k)
    requires Tracking(m, R, empty, lo, a, rem, row, p, e) && Extends(R, R', lo)
    requires rem.items.Group? && rem.items.kind == k && lo <= ns && RepGroup(R', empty.value, lo, k, rem.items.alts, ns)
    ensures var row' := Spliced(row, p, e, ns, Extraction(row, p, e, m.Left(k), m.Right(k)));
      Tracking(m, R', empty, lo, a, WithItems(rem, rem.items.tail), row', p, e + 1)
  {
    var x := Extraction(row, p, e, m.Left(k), m.Right(k));
    var row' := Spliced(row, p, e, ns, x);
    TrackedGroup(m, rem, row, p, e, k);
    ContinuesExtends(R, R', empty.value, lo, a, rem, row[..p], row[p][..e]);
    ContinuesItem(R', empty.value, lo, a, rem, row[..p], row[p][..e], ns);
    assert row'[..p] == row[..p] && row'[p] == row[p][..e] + [ns] + x.tail && row'[p + 1..] == x.left;
    assert row'[p][..e + 1] == row[p][..e] + [ns] && row'[p][e + 1..] == x.tail;
    var f' := Flat(m, WithItems(rem, rem.items.tail));
    assert f' == [f'[0]] + f'[1..];
  }

  /** What extractuntil will take out when a group of the expression is ahead. */
  lemma TrackedGroup(m: Metas, rem: Alts, row: seq<Rule>, p: nat, e: nat, k: Kind)
    requires m.Distinct() && p < |row| && e < |row[p]| && row[p][e] == m.Left(k) && Layout(m, rem, RestOf(row, p, e))
    ensures rem.items.Group? && rem.items.kind == k && Plain(m, rem.items.alts) && NoEnd(rem.items.alts)
    ensures var f' := Flat(m, WithItems(rem, rem.items.tail));
      && Plain(m, WithItems(rem, rem.items.tail))
      && Extraction(row, p, e, m.Left(k), m.Right(k)) == Extract(Flat(m, rem.items.alts), f'[0], f'[1..], true)
  {
    FirstItem(m, rem, row[p][e]);
    RestGroup(m, rem);
    assert row[p][e..][1..] == row[p][e + 1..] && RestOf(row, p, e)[1..] == row[p + 1..];
  }

  lemma StepGroupParses(m: Metas, row0: seq<Rule>, row: seq<Rule>, p: nat, e: nat, k: Kind, ns: Sym)
    requires m.Distinct() && p < |row| && e < |row[p]| && row[p][e] == m.Left(k)
    requires Parses(m, row0, RestOf(row, p, e))
    requires var x := Extraction(row, p, e, m.Left(k), m.Right(k));
      x.found && WellFormed(m, x.taken) && NoneNull(x.taken)
    ensures var row' := Spliced(row, p, e, ns, Extraction(row, p, e, m.Left(k), m.Right(k)));
      Parses(m, row0, RestOf(row', p, e + 1))
  {
    var x := Extraction(row, p, e, m.Left(k), m.Right(k));
    var row' := Spliced(row, p, e, ns, x);
    assert row'[p] == row[p][..e] + [ns] + x.tail && row'[p][e + 1..] == x.tail && row'[p + 1..] == x.left;
    assert RestOf(row', p, e + 1) == [x.tail] + x.left;
    if WellFormed(m, [x.tail] + x.left) {
      WellFormedGroup(m, k, x.taken, x.tail, x.left);
      GroupAhead(m, row, p, e, k);
    }
  }

  /** The group ahead, put together again from what a successful extraction took. */
  lemma GroupAhead(m: Metas, row: seq<Rule>, p: nat, e: nat, k: Kind)
    requires p < |row| && e < |row[p]| && row[p][e] == m.Left(k)
    ensures var x := Extraction(row, p, e, m.Left(k), m.Right(k));
      x.found ==> RestOf(row, p, e) == Glue([[m.Left(k)]], Glue(x.taken, Glue([[m.Right(k)]], [x.tail] + x.left)))
  {
    var inner := [row[p][e + 1..]] + row[p + 1..];
    ScanParts(m.Left(k), m.Right(k), inner, 0);
    assert inner[1..] == row[p + 1..] && row[p][e..] == [m.Left(k)] + row[p][e + 1..];
    assert Glue([[m.Left(k)]], inner) == RestOf(row, p, e);
  }

  /** Extraction makes progress: a bracket less, and fewer elements ahead. */
  lemma ExtractionCounts(m: Metas, row: seq<Rule>, p: nat, e: nat, k: Kind, ns: Sym)
    requires p < |row| && e < |row[p]| && row[p][e] == m.Left(k) && !m.IsLeft(ns)
    ensures var x := Extraction(row, p, e, m.Left(k), m.Right(k)); var row' := Spliced(row, p, e, ns, x);
      && RowLefts(m, row') + RowLefts(m, x.taken) + 1 <= RowLefts(m, row) && |row'| <= |row|
      && row'[..p] == row[..p] && row'[p][..e + 1] == row[p][..e] + [ns]
      && Size(RestOf(row', p, e + 1)) < Size(RestOf(row, p, e))
  {
    var x := Extraction(row, p, e, m.Left(k), m.Right(k));
    var row' := Spliced(row, p, e, ns, x);
    assert row'[p] == row[p][..e] + [ns] + x.tail && row'[p + 1..] == x.left;
    assert row'[p][..e] == row[p][..e] && row'[p][e] == ns && row'[p][e + 1..] == x.tail;
    assert row'[..p] == row[..p] && ([x.tail] + x.left)[1..] == x.left;
    ScanCounts(m, m.Left(k), m.Right(k), [row[p][e + 1..]] + row[p + 1..], 0);
    RestCounts(m, row, p, e);
    RestCounts(m, row', p, e);
    assert RowLefts(m, row') == RowLefts(m, row[..p]) + Lefts(m, row[p][..e]) + Lefts(m, x.tail) + RowLefts(m, x.left);
  }
}
