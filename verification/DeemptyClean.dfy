/** deempty.c, the rewriting phase: cleanempty and dupminus. */
module Cleaning {
  import opened Grammars
  import opened SameRules
  import opened Deempting

  // ----- what the rewriting is for -----

  /** q is r without its ISEMPTY elements and without some of its CANBEEMPTY elements. */
  predicate Variant(st: seq<State>, r: Rule, q: Rule) {
    if r == [] then q == []
    else
      || (MarkOf(st, r[0]) != NON_EMPTY && Variant(st, r[1..], q))
      || (MarkOf(st, r[0]) != IsEmpty && q != [] && q[0] == r[0] && Variant(st, r[1..], q[1..]))
  }

  /** How many elements are not ISEMPTY. */
  function Solid(st: seq<State>, r: Rule): nat {
    if r == [] then 0 else (if MarkOf(st, r[0]) == IsEmpty then 0 else 1) + Solid(st, r[1..])
  }

  predicate Clean(st: seq<State>, r: Rule) {
    forall i :: 0 <= i < |r| ==> MarkOf(st, r[i]) != IsEmpty
  }

  lemma {:induction false} CleanVariant(st: seq<State>, r: Rule)
    requires Clean(st, r)
    ensures Variant(st, r, r)
  {
    if r != [] { CleanVariant(st, r[1..]); }
  }

  lemma {:induction false} VariantConcat(st: seq<State>, a: Rule, b: Rule, x: Rule, y: Rule)
    requires Variant(st, a, x) && Variant(st, b, y)
    ensures Variant(st, a + b, x + y)
  {
    if a == [] {
      assert a + b == b && x + y == y;
    } else {
      assert (a + b)[1..] == a[1..] + b;
      if MarkOf(st, a[0]) != NON_EMPTY && Variant(st, a[1..], x) {
        VariantConcat(st, a[1..], b, x, y);
      } else {
        VariantConcat(st, a[1..], b, x[1..], y);
        assert (x + y)[1..] == x[1..] + y;
      }
    }
  }

  lemma {:induction false} VariantSplit(st: seq<State>, a: Rule, b: Rule, q: Rule) returns (x: Rule, y: Rule)
    requires Variant(st, a + b, q)
    ensures q == x + y && Variant(st, a, x) && Variant(st, b, y)
  {
    if a == [] {
      assert a + b == b;
      x, y := [], q;
    } else {
      assert (a + b)[1..] == a[1..] + b;
      if MarkOf(st, a[0]) != NON_EMPTY && Variant(st, a[1..] + b, q) {
        x, y := VariantSplit(st, a[1..], b, q);
      } else {
        x, y := VariantSplit(st, a[1..], b, q[1..]);
        x := [a[0]] + x;
      }
    }
  }

  lemma {:induction false} SolidConcat(st: seq<State>, a: Rule, b: Rule)
    ensures Solid(st, a + b) == Solid(st, a) + Solid(st, b)
  {
    if a == [] {
      assert a + b == b;
    } else {
      assert (a + b)[1..] == a[1..] + b;
      SolidConcat(st, a[1..], b);
    }
  }

  /** Rule r with element j taken out. */
  function Minus(r: Rule, j: nat): Rule
    requires j < |r|
  {
    r[..j] + r[j + 1..]
  }

  lemma MinusParts(st: seq<State>, r: Rule, j: nat)
    requires j < |r|
    ensures r == r[..j] + ([r[j]] + r[j + 1..])
    ensures Solid(st, r) == Solid(st, Minus(r, j)) + if MarkOf(st, r[j]) == IsEmpty then 0 else 1
  {
    assert r == r[..j] + ([r[j]] + r[j + 1..]);
    SolidConcat(st, r[..j], [r[j]] + r[j + 1..]);
    SolidConcat(st, [r[j]], r[j + 1..]);
    SolidConcat(st, r[..j], r[j + 1..]);
    assert Solid(st, [r[j]]) == if MarkOf(st, r[j]) == IsEmpty then 0 else 1;
  }

  /** Dropping an element that may be empty only loses variants ... */
  lemma MinusVariant(st: seq<State>, r: Rule, j: nat, q: Rule)
    requires j < |r| && MarkOf(st, r[j]) != NON_EMPTY && Variant(st, Minus(r, j), q)
    ensures Variant(st, r, q)
  {
    MinusParts(st, r, j);
    var x, y := VariantSplit(st, r[..j], r[j + 1..], q);
    assert Variant(st, [r[j]] + r[j + 1..], y) by {
      assert ([r[j]] + r[j + 1..])[1..] == r[j + 1..];
    }
    VariantConcat(st, r[..j], [r[j]] + r[j + 1..], x, y);
  }

  /** ... and loses none when the element is ISEMPTY. */
  lemma MinusEmptyVariant(st: seq<State>, r: Rule, j: nat, q: Rule)
    requires j < |r| && MarkOf(st, r[j]) == IsEmpty
    ensures Variant(st, Minus(r, j), q) <==> Variant(st, r, q)
  {
    if Variant(st, Minus(r, j), q) { MinusVariant(st, r, j, q); }
    if Variant(st, r, q) {
      MinusParts(st, r, j);
      var x, y := VariantSplit(st, r[..j], [r[j]] + r[j + 1..], q);
      assert ([r[j]] + r[j + 1..])[1..] == r[j + 1..];
      VariantConcat(st, r[..j], r[j + 1..], x, y);
    }
  }

  lemma {:induction false} EmptyVariant(st: seq<State>, r: Rule, q: Rule)
    requires AllEmpty(st, r) && Variant(st, r, q)
    ensures q == []
  {
    if r != [] {
      assert MarkOf(st, r[0]) == IsEmpty;
      forall i | 0 <= i < |r[1..]| ensures MarkOf(st, r[1..][i]) == IsEmpty { assert r[1..][i] == r[i + 1]; }
      EmptyVariant(st, r[1..], q);
    }
  }

  // ----- the loop invariants -----

  /** q keeps the first j elements of b and is a variant of b after them. */
  predicate Held(st: seq<State>, b: Rule, j: nat, q: Rule) {
    j <= |b| && j <= |q| && q[..j] == b[..j] && Variant(st, b[j..], q[j..])
  }

  /** Some rule from row i on, no more solid than the bound, still has q among its variants. */
  ghost predicate Pending(st: seq<State>, row: seq<Rule>, i: nat, bound: nat, q: Rule) {
    exists k :: i <= k < |row| && Solid(st, row[k]) <= bound && Variant(st, row[k], q)
  }

  /** Between rules: a non-null variant of r is already there or will come from a rule ahead. */
  ghost predicate Covered(st: seq<State>, row: seq<Rule>, i: nat, r: Rule, q: Rule) {
    i <= |row| && (q in row[..i] || Pending(st, row, i, Solid(st, r), q))
  }

  /** Inside rule i at element j: or it will come from the rule being worked on. */
  ghost predicate CoveredAt(st: seq<State>, row: seq<Rule>, i: nat, j: nat, r: Rule, q: Rule) {
    i < |row| && (q in row[..i] || Pending(st, row, i + 1, Solid(st, r), q)
      || (Solid(st, row[i]) <= Solid(st, r) && Held(st, row[i], j, q)))
  }

  /** Every non-null variant of every source rule and of every finished rule is covered. */
  ghost predicate Complete(st: seq<State>, src: seq<Rule>, row: seq<Rule>, i: nat) {
    i <= |row| && forall r, q {:trigger Variant(st, r, q)} ::
      (r in src || r in row[..i]) && q != [] && Variant(st, r, q) ==> Covered(st, row, i, r, q)
  }

  ghost predicate CompleteAt(st: seq<State>, src: seq<Rule>, row: seq<Rule>, i: nat, j: nat) {
    i < |row| && forall r, q {:trigger Variant(st, r, q)} ::
      (r in src || r in row[..i] || r == row[i]) && q != [] && Variant(st, r, q) ==> CoveredAt(st, row, i, j, r, q)
  }

  /** Nothing is generated that is not a variant of a source rule. */
  ghost predicate Sound(st: seq<State>, src: seq<Rule>, row: seq<Rule>) {
    forall k, q {:trigger Variant(st, row[k], q)} :: 0 <= k < |row| && Variant(st, row[k], q) ==> FromSource(st, src, q)
  }

  ghost predicate FromSource(st: seq<State>, src: seq<Rule>, q: Rule) {
    exists r :: r in src && Variant(st, r, q)
  }

  lemma StartComplete(st: seq<State>, src: seq<Rule>)
    ensures Complete(st, src, src, 0) && Sound(st, src, src)
  {
    forall r, q | r in src && Variant(st, r, q) ensures Covered(st, src, 0, r, q) {
      var k :| 0 <= k < |src| && src[k] == r;
      assert Variant(st, src[k], q);
    }
  }

  /** An ISEMPTY rule is unlinked. */
  lemma DropRule(st: seq<State>, src: seq<Rule>, row: seq<Rule>, i: nat)
    requires i < |row| && AllEmpty(st, row[i]) && Complete(st, src, row, i) && Sound(st, src, row)
    ensures var row' := row[..i] + row[i + 1..]; Complete(st, src, row', i) && Sound(st, src, row')
  {
    var row' := row[..i] + row[i + 1..];
    assert row'[..i] == row[..i];
    forall r, q | (r in src || r in row'[..i]) && q != [] && Variant(st, r, q) ensures Covered(st, row', i, r, q) {
      assert Covered(st, row, i, r, q);
      if q !in row[..i] {
        var k :| i <= k < |row| && Solid(st, row[k]) <= Solid(st, r) && Variant(st, row[k], q);
        if k == i { EmptyVariant(st, row[i], q); }
        assert row'[k - 1] == row[k];
      }
    }
    forall k, q | 0 <= k < |row'| && Variant(st, row'[k], q) ensures FromSource(st, src, q) {
      assert row'[k] == row[if k < i then k else k + 1];
    }
  }

  lemma EnterRule(st: seq<State>, src: seq<Rule>, row: seq<Rule>, i: nat)
    requires i < |row| && Complete(st, src, row, i)
    ensures CompleteAt(st, src, row, i, 0)
  {
    forall r, q | (r in src || r in row[..i] || r == row[i]) && q != [] && Variant(st, r, q)
      ensures CoveredAt(st, row, i, 0, r, q)
    {
      assert row[i][0..] == row[i] && q[0..] == q;
      if r in src || r in row[..i] {
        assert Covered(st, row, i, r, q);
        if q !in row[..i] {
          var k :| i <= k < |row| && Solid(st, row[k]) <= Solid(st, r) && Variant(st, row[k], q);
        }
      }
    }
  }

  lemma LeaveRule(st: seq<State>, src: seq<Rule>, row: seq<Rule>, i: nat)
    requires i < |row| && CompleteAt(st, src, row, i, |row[i]|)
    ensures Complete(st, src, row, i + 1)
  {
    assert row[..i + 1] == row[..i] + [row[i]];
    forall r, q | (r in src || r in row[..i + 1]) && q != [] && Variant(st, r, q)
      ensures Covered(st, row, i + 1, r, q)
    {
      assert CoveredAt(st, row, i, |row[i]|, r, q);
      if Held(st, row[i], |row[i]|, q) { assert q == row[i]; }
    }
  }

  /** An ISEMPTY element is deleted. */
  lemma DropElement(st: seq<State>, src: seq<Rule>, row: seq<Rule>, i: nat, j: nat)
    requires CompleteAt(st, src, row, i, j) && j < |row[i]| && MarkOf(st, row[i][j]) == IsEmpty && Sound(st, src, row)
    ensures var row' := row[i := Minus(row[i], j)]; CompleteAt(st, src, row', i, j) && Sound(st, src, row')
  {
    var b := row[i];
    var b' := Minus(b, j);
    var row' := row[i := b'];
    MinusParts(st, b, j);
    assert row'[..i] == row[..i];
    forall r, q | (r in src || r in row'[..i] || r == row'[i]) && q != [] && Variant(st, r, q)
      ensures CoveredAt(st, row', i, j, r, q)
    {
      var r0 := if r in src || r in row[..i] then r else b;
      if r0 == b && r == b' { MinusEmptyVariant(st, b, j, q); }
      assert CoveredAt(st, row, i, j, r0, q);
      assert Solid(st, r0) == Solid(st, r);
      if q in row[..i] {
      } else if Pending(st, row, i + 1, Solid(st, r), q) {
        var k :| i + 1 <= k < |row| && Solid(st, row[k]) <= Solid(st, r) && Variant(st, row[k], q);
        assert row'[k] == row[k];
      } else {
        assert Held(st, b, j, q);
        assert b[j..][1..] == b[j + 1..] == b'[j..] && b'[..j] == b[..j];
      }
    }
    forall k, q | 0 <= k < |row'| && Variant(st, row'[k], q) ensures FromSource(st, src, q) {
      if k == i { MinusEmptyVariant(st, b, j, q); }
      assert Variant(st, row[k], q);
    }
  }

  /** A NONEMPTY element is passed over. */
  lemma PassElement(st: seq<State>, src: seq<Rule>, row: seq<Rule>, i: nat, j: nat)
    requires CompleteAt(st, src, row, i, j) && j < |row[i]| && MarkOf(st, row[i][j]) == NON_EMPTY
    ensures CompleteAt(st, src, row, i, j + 1)
  {
    forall r, q | (r in src || r in row[..i] || r == row[i]) && q != [] && Variant(st, r, q)
      ensures CoveredAt(st, row, i, j + 1, r, q)
    {
      assert CoveredAt(st, row, i, j, r, q);
      if Held(st, row[i], j, q) { HeldNext(st, row[i], j, q); }
    }
  }

  /** A held variant keeps the element at j, or is a held variant of the rule without it. */
  lemma HeldNext(st: seq<State>, b: Rule, j: nat, q: Rule)
    requires j < |b| && Held(st, b, j, q)
    ensures Held(st, b, j + 1, q) || (MarkOf(st, b[j]) != NON_EMPTY && Held(st, Minus(b, j), j, q))
  {
    var y := q[j..];
    assert b[j..][0] == b[j] && b[j..][1..] == b[j + 1..] == Minus(b, j)[j..] && Minus(b, j)[..j] == b[..j];
    if !(MarkOf(st, b[j]) != NON_EMPTY && Variant(st, b[j + 1..], y)) {
      assert y[1..] == q[j + 1..] && q[j] == b[j];
      assert q[..j + 1] == q[..j] + [q[j]] && b[..j + 1] == b[..j] + [b[j]];
    }
  }

  lemma HeldVariant(st: seq<State>, b: Rule, j: nat, q: Rule)
    requires Held(st, b, j, q) && Clean(st, b[..j])
    ensures Variant(st, b, q)
  {
    CleanVariant(st, b[..j]);
    VariantConcat(st, b[..j], b[j..], q[..j], q[j..]);
    assert b[..j] + b[j..] == b && q[..j] + q[j..] == q;
  }

  /** The row after dupminus: the rule without element j is put behind rule i unless it is null or
      already there. */
  function WithDuplicate(row: seq<Rule>, i: nat, j: nat): seq<Rule>
    requires i < |row| && j < |row[i]|
  {
    var np := Minus(row[i], j);
    if np == [] || np in row then row else row[..i + 1] + [np] + row[i + 1..]
  }

  /** A CANBEEMPTY element is kept in the rule and dropped in a copy.  If the copy is already in the
      list it is ahead, or finished; then its variants are covered by rules that are strictly less
      solid than this one, so not by this one. */
  lemma SplitElement(st: seq<State>, src: seq<Rule>, row: seq<Rule>, i: nat, j: nat)
    requires CompleteAt(st, src, row, i, j) && Sound(st, src, row)
    requires j < |row[i]| && MarkOf(st, row[i][j]) == CanBeEmpty && Clean(st, row[i][..j])
    ensures CompleteAt(st, src, WithDuplicate(row, i, j), i, j + 1) && Sound(st, src, WithDuplicate(row, i, j))
  {
    var b, row' := row[i], WithDuplicate(row, i, j);
    assert row'[..i] == row[..i] && row'[i] == b;
    forall r, q | (r in src || r in row'[..i] || r == row'[i]) && q != [] && Variant(st, r, q)
      ensures CoveredAt(st, row', i, j + 1, r, q)
    {
      assert CoveredAt(st, row, i, j, r, q);
      if q in row[..i] {
      } else if Pending(st, row, i + 1, Solid(st, r), q) {
        PendingKept(st, row, i, j, Solid(st, r), q);
      } else {
        HeldNext(st, b, j, q);
        if !Held(st, b, j + 1, q) { SplitCovered(st, src, row, i, j, r, q); }
      }
    }
    forall k, q | 0 <= k < |row'| && Variant(st, row'[k], q) ensures FromSource(st, src, q) {
      if row' != row && k == i + 1 {
        MinusVariant(st, b, j, q);
        assert Variant(st, row[i], q);
      } else {
        assert row'[k] == row[if row' == row || k <= i then k else k - 1];
      }
    }
  }

  lemma PendingKept(st: seq<State>, row: seq<Rule>, i: nat, j: nat, bound: nat, q: Rule)
    requires i < |row| && j < |row[i]| && Pending(st, row, i + 1, bound, q)
    ensures Pending(st, WithDuplicate(row, i, j), i + 1, bound, q)
  {
    var row' := WithDuplicate(row, i, j);
    var k :| i + 1 <= k < |row| && Solid(st, row[k]) <= bound && Variant(st, row[k], q);
    if row' != row { assert row'[k + 1] == row[k]; }
  }

  /** The case of SplitElement in which q drops element j. */
  lemma SplitCovered(st: seq<State>, src: seq<Rule>, row: seq<Rule>, i: nat, j: nat, r: Rule, q: Rule)
    requires CompleteAt(st, src, row, i, j) && j < |row[i]|
    requires MarkOf(st, row[i][j]) == CanBeEmpty && Clean(st, row[i][..j])
    requires q != [] && Solid(st, row[i]) <= Solid(st, r) && Held(st, Minus(row[i], j), j, q)
    ensures CoveredAt(st, WithDuplicate(row, i, j), i, j + 1, r, q)
  {
    var b, row' := row[i], WithDuplicate(row, i, j);
    var np := Minus(b, j);
    MinusParts(st, b, j);
    assert np[..j] == b[..j];
    HeldVariant(st, np, j, q);
    assert np != [];
    if np !in row {
      assert row'[i + 1] == np;
    } else {
      var k :| 0 <= k < |row| && row[k] == np;
      assert k != i by { assert |np| < |b|; }
      if k < i {
        assert row[..i][k] == np;
        assert CoveredAt(st, row, i, j, np, q);
      }
    }
  }

  // ----- when a null rule is left behind -----

  /** The run of ISEMPTY elements at the end of a rule. */
  function Tail(st: seq<State>, r: Rule): Rule {
    if r == [] || MarkOf(st, r[|r| - 1]) != IsEmpty then [] else Tail(st, r[..|r| - 1]) + [r[|r| - 1]]
  }

  /** No element is NONEMPTY. */
  ghost predicate Mix(st: seq<State>, r: Rule) {
    forall i :: 0 <= i < |r| ==> MarkOf(st, r[i]) != NON_EMPTY
  }

  /** Rule k will end in a null rule: it is not deleted although all its elements are ISEMPTY, or all its
      elements may vanish and the ISEMPTY run at its end, which a copy of it is reduced to, is not a rule
      listed after it (dupminus would find that one, and it is deleted as a whole). */
  ghost predicate Hollow(st: seq<State>, row: seq<Rule>, ps: seq<State>, k: nat) {
    && k < |row| == |ps| && ps[k] != IsEmpty && Mix(st, row[k])
    && (AllEmpty(st, row[k]) || (Tail(st, row[k]) != [] && Tail(st, row[k]) !in row[k + 1..]))
  }

  ghost predicate NullAhead(st: seq<State>, row: seq<Rule>, ps: seq<State>, i: nat) {
    exists k :: i <= k < |row| && Hollow(st, row, ps, k)
  }

  ghost predicate NullIn(st: seq<State>, row: seq<Rule>, ps: seq<State>, i: nat) {
    i <= |row| && ([] in row[..i] || NullAhead(st, row, ps, i))
  }

  /** r without its ISEMPTY elements. */
  function Strip(st: seq<State>, r: Rule): Rule {
    if r == [] then []
    else
      var s := Strip(st, r[..|r| - 1]);
      if MarkOf(st, r[|r| - 1]) == IsEmpty then s else s + [r[|r| - 1]]
  }

  lemma SnocMarks(st: seq<State>, s: Rule, x: Sym)
    ensures AllEmpty(st, s + [x]) <==> AllEmpty(st, s) && MarkOf(st, x) == IsEmpty
    ensures Mix(st, s + [x]) <==> Mix(st, s) && MarkOf(st, x) != NON_EMPTY
    ensures Clean(st, s + [x]) <==> Clean(st, s) && MarkOf(st, x) != IsEmpty
  {
    var t := s + [x];
    assert t[|s|] == x && forall i :: 0 <= i < |s| ==> t[i] == s[i];
  }

  lemma {:induction false} StripFacts(st: seq<State>, r: Rule)
    ensures Clean(st, Strip(st, r)) && |Strip(st, r)| <= |r|
    ensures Strip(st, r) == [] <==> AllEmpty(st, r)
    ensures Mix(st, Strip(st, r)) <==> Mix(st, r)
  {
    if r != [] {
      var q, x := r[..|r| - 1], r[|r| - 1];
      StripFacts(st, q);
      assert r == q + [x];
      SnocMarks(st, q, x);
      SnocMarks(st, Strip(st, q), x);
    }
  }

  lemma {:induction false} TailFacts(st: seq<State>, r: Rule)
    ensures AllEmpty(st, Tail(st, r)) && |Tail(st, r)| <= |r|
    ensures Tail(st, r) == r <==> AllEmpty(st, r)
    ensures Tail(st, r) != [] <==> r != [] && MarkOf(st, r[|r| - 1]) == IsEmpty
  {
    if r != [] && MarkOf(st, r[|r| - 1]) == IsEmpty {
      var q := r[..|r| - 1];
      TailFacts(st, q);
      assert r == q + [r[|r| - 1]];
    }
  }

  /** The tail only depends on what follows an element that is not ISEMPTY. */
  lemma {:induction false} TailSuffix(st: seq<State>, a: Rule, x: Sym, b: Rule)
    requires MarkOf(st, x) != IsEmpty
    ensures Tail(st, a + [x] + b) == Tail(st, b)
  {
    var r := a + [x] + b;
    if b == [] {
      assert r[|r| - 1] == x;
    } else {
      var b' := b[..|b| - 1];
      assert r[..|r| - 1] == a + [x] + b' && r[|r| - 1] == b[|b| - 1];
      TailSuffix(st, a, x, b');
    }
  }

  /** How the list at element e of rule i relates to the list when rule i was entered: the first c elements
      of the rule have been looked at, and nothing was inserted as long as none was kept. */
  ghost predicate Tracks(st: seq<State>, row0: seq<Rule>, ps0: seq<State>, row: seq<Rule>, ps: seq<State>, i: nat,
      c: nat, e: nat)
  {
    && i < |row0| == |ps0| && |row0| <= |row| == |ps| && row[..i] == row0[..i] && c <= |row0[i]|
    && row[i] == Strip(st, row0[i][..c]) + row0[i][c..] && e == |Strip(st, row0[i][..c])|
    && ps[i] == ps0[i] && ps[i] != IsEmpty
    && (e == 0 ==> row[i + 1..] == row0[i + 1..] && ps[i + 1..] == ps0[i + 1..])
    && Among(row0[i + 1..], row[i + 1..])
  }

  ghost predicate Among(a: seq<Rule>, b: seq<Rule>) {
    forall r :: r in a ==> r in b
  }

  /** Whether a null rule is coming stays settled: one is there, or a rule behind rule i is hollow, or rule i
      was hollow when entered and nothing of it has been kept yet. */
  ghost predicate Accounts(st: seq<State>, row: seq<Rule>, ps: seq<State>, i: nat, e: nat, hollow: bool, coming: bool) {
    i < |row| && (coming <==> [] in row[..i] || NullAhead(st, row, ps, i + 1) || (e == 0 && hollow))
  }

  lemma TracksEnter(st: seq<State>, row: seq<Rule>, ps: seq<State>, i: nat)
    requires i < |row| == |ps| && ps[i] != IsEmpty
    ensures Tracks(st, row, ps, row, ps, i, 0, 0)
    ensures Accounts(st, row, ps, i, 0, Hollow(st, row, ps, i), NullIn(st, row, ps, i))
  {
    assert row[i][..0] == [] && Strip(st, []) == [] && [] + row[i][0..] == row[i];
    if k :| i <= k < |row| && Hollow(st, row, ps, k) && k != i { assert NullAhead(st, row, ps, i + 1); }
    if NullAhead(st, row, ps, i + 1) {
      var k :| i + 1 <= k < |row| && Hollow(st, row, ps, k);
      assert NullAhead(st, row, ps, i);
    }
  }

  lemma StripNext(st: seq<State>, r: Rule, c: nat)
    requires c < |r|
    ensures Strip(st, r[..c + 1]) ==
      if MarkOf(st, r[c]) == IsEmpty then Strip(st, r[..c]) else Strip(st, r[..c]) + [r[c]]
    ensures r[c..] == [r[c]] + r[c + 1..]
  {
    assert r[..c + 1][..c] == r[..c];
  }

  /** Hollowness of the rules behind rule i does not depend on rule i. */
  lemma AheadSame(st: seq<State>, row: seq<Rule>, ps: seq<State>, row': seq<Rule>, ps': seq<State>, i: nat)
    requires i < |row| == |ps| == |row'| == |ps'| && row[i + 1..] == row'[i + 1..] && ps[i + 1..] == ps'[i + 1..]
    ensures NullAhead(st, row, ps, i + 1) <==> NullAhead(st, row', ps', i + 1)
  {
    forall k | i + 1 <= k < |row| ensures Hollow(st, row, ps, k) <==> Hollow(st, row', ps', k) {
      assert row[k] == row[i + 1..][k - i - 1] && row'[k] == row'[i + 1..][k - i - 1];
      assert ps[k] == ps[i + 1..][k - i - 1] && ps'[k] == ps'[i + 1..][k - i - 1];
      assert row[k + 1..] == row[i + 1..][k - i..] && row'[k + 1..] == row'[i + 1..][k - i..];
    }
    if k :| i + 1 <= k < |row| && Hollow(st, row, ps, k) { assert Hollow(st, row', ps', k); }
    if k :| i + 1 <= k < |row'| && Hollow(st, row', ps', k) { assert Hollow(st, row, ps, k); }
  }

  lemma TracksDrop(st: seq<State>, row0: seq<Rule>, ps0: seq<State>, row: seq<Rule>, ps: seq<State>, i: nat, c: nat,
      e: nat)
    requires Tracks(st, row0, ps0, row, ps, i, c, e) && e < |row[i]| && MarkOf(st, row[i][e]) == IsEmpty
    ensures Tracks(st, row0, ps0, row[i := Minus(row[i], e)], ps, i, c + 1, e)
    ensures forall h, n :: Accounts(st, row, ps, i, e, h, n) ==>
      Accounts(st, row[i := Minus(row[i], e)], ps, i, e, h, n)
  {
    var b0 := row0[i];
    assert row[i][e] == b0[c];
    StripNext(st, b0, c);
    assert Minus(row[i], e) == Strip(st, b0[..c]) + b0[c + 1..];
    var row' := row[i := Minus(row[i], e)];
    assert row'[i + 1..] == row[i + 1..] && row'[..i] == row[..i];
    AheadSame(st, row, ps, row', ps, i);
  }

  lemma TracksPass(st: seq<State>, row0: seq<Rule>, ps0: seq<State>, row: seq<Rule>, ps: seq<State>, i: nat, c: nat,
      e: nat)
    requires Tracks(st, row0, ps0, row, ps, i, c, e) && e < |row[i]| && MarkOf(st, row[i][e]) == NON_EMPTY
    ensures Tracks(st, row0, ps0, row, ps, i, c + 1, e + 1) && !Hollow(st, row0, ps0, i)
  {
    var b0 := row0[i];
    assert row[i][e] == b0[c];
    StripNext(st, b0, c);
    assert row[i] == (Strip(st, b0[..c]) + [b0[c]]) + b0[c + 1..];
    assert !Mix(st, b0);
    TailFacts(st, b0);
  }

  /** The list and the states after the insertion of dupminus. */
  function StatesWith(row: seq<Rule>, ps: seq<State>, i: nat, j: nat): seq<State>
    requires i < |row| == |ps| && j < |row[i]|
  {
    if WithDuplicate(row, i, j) == row then ps else ps[..i + 1] + [ps[i]] + ps[i + 1..]
  }

  /** An insertion behind rule i adds one candidate for hollowness and disturbs no other. */
  lemma AheadInserted(st: seq<State>, row: seq<Rule>, ps: seq<State>, i: nat, np: Rule)
    requires i < |row| == |ps|
    ensures var row', ps' := row[..i + 1] + [np] + row[i + 1..], ps[..i + 1] + [ps[i]] + ps[i + 1..];
      NullAhead(st, row', ps', i + 1) <==> NullAhead(st, row, ps, i + 1) || Hollow(st, row', ps', i + 1)
  {
    var row', ps' := row[..i + 1] + [np] + row[i + 1..], ps[..i + 1] + [ps[i]] + ps[i + 1..];
    forall k | i + 1 <= k < |row| ensures Hollow(st, row, ps, k) <==> Hollow(st, row', ps', k + 1) {
      assert row'[k + 1] == row[k] && ps'[k + 1] == ps[k];
      assert row'[k + 2..] == row[k + 1..];
    }
    if k :| i + 1 <= k < |row| && Hollow(st, row, ps, k) { assert Hollow(st, row', ps', k + 1); }
    if k :| i + 1 <= k < |row'| && Hollow(st, row', ps', k) && k != i + 1 {
      assert Hollow(st, row, ps, k - 1);
    }
  }

  /** A copy pre + post of b0 = a + [x] + post, x vanishing and pre being a without its ISEMPTY elements. */
  lemma CopyMix(st: seq<State>, a: Rule, x: Sym, post: Rule)
    requires MarkOf(st, x) == CanBeEmpty
    ensures Mix(st, Strip(st, a) + post) <==> Mix(st, a + [x] + post)
    ensures !AllEmpty(st, a + [x] + post)
  {
    StripFacts(st, a);
    SnocMarks(st, a, x);
    MixConcat(st, a + [x], post);
    MixConcat(st, Strip(st, a), post);
    assert (a + [x] + post)[|a|] == x;
  }

  lemma CleanTail(st: seq<State>, pre: Rule, post: Rule)
    requires Clean(st, pre)
    ensures Tail(st, pre + post) == Tail(st, post)
  {
    if pre == [] {
      assert pre + post == post;
    } else {
      var n := |pre| - 1;
      assert pre == pre[..n] + [pre[n]];
      TailSuffix(st, pre[..n], pre[n], post);
    }
  }

  lemma CopyTail(st: seq<State>, a: Rule, x: Sym, post: Rule)
    requires MarkOf(st, x) == CanBeEmpty
    ensures Tail(st, Strip(st, a) + post) == Tail(st, a + [x] + post)
  {
    StripFacts(st, a);
    TailSuffix(st, a, x, post);
    CleanTail(st, Strip(st, a), post);
  }

  lemma MixConcat(st: seq<State>, a: Rule, b: Rule)
    ensures Mix(st, a + b) <==> Mix(st, a) && Mix(st, b)
  {
    if Mix(st, a + b) {
      forall i | 0 <= i < |a| ensures MarkOf(st, a[i]) != NON_EMPTY { assert (a + b)[i] == a[i]; }
      forall i | 0 <= i < |b| ensures MarkOf(st, b[i]) != NON_EMPTY { assert (a + b)[|a| + i] == b[i]; }
    }
  }

  /** The copy made at element e, in terms of the rule as it was entered. */
  lemma CopyAt(st: seq<State>, row0: seq<Rule>, ps0: seq<State>, row: seq<Rule>, ps: seq<State>, i: nat, c: nat, e: nat)
    requires Tracks(st, row0, ps0, row, ps, i, c, e) && e < |row[i]| && MarkOf(st, row[i][e]) == CanBeEmpty
    ensures c < |row0[i]| && row[i][e] == row0[i][c] && Minus(row[i], e) == Strip(st, row0[i][..c]) + row0[i][c + 1..]
    ensures var np := Minus(row[i], e); (Mix(st, np) <==> Mix(st, row0[i])) && Tail(st, np) == Tail(st, row0[i])
    ensures !AllEmpty(st, row0[i])
    ensures (AllEmpty(st, Minus(row[i], e)) ==> Tail(st, Minus(row[i], e)) == Minus(row[i], e))
  {
    var b0 := row0[i];
    assert row[i][e] == b0[c];
    assert b0 == b0[..c] + [b0[c]] + b0[c + 1..];
    CopyMix(st, b0[..c], b0[c], b0[c + 1..]);
    CopyTail(st, b0[..c], b0[c], b0[c + 1..]);
    TailFacts(st, Minus(row[i], e));
  }

  /** A new copy that is hollow comes from a rule that was, ... */
  lemma HollowCopy(st: seq<State>, row0: seq<Rule>, ps0: seq<State>, row: seq<Rule>, ps: seq<State>, i: nat, c: nat,
      e: nat)
    requires Tracks(st, row0, ps0, row, ps, i, c, e) && e < |row[i]| && MarkOf(st, row[i][e]) == CanBeEmpty
    requires Minus(row[i], e) != [] && Minus(row[i], e) !in row
    requires Hollow(st, WithDuplicate(row, i, e), StatesWith(row, ps, i, e), i + 1)
    ensures Hollow(st, row0, ps0, i)
  {
    var np, row' := Minus(row[i], e), WithDuplicate(row, i, e);
    var ahead0, ahead := row0[i + 1..], row[i + 1..];
    CopyAt(st, row0, ps0, row, ps, i, c, e);
    assert row'[i + 1] == np && row'[i + 2..] == ahead;
    InSlice(row, i + 1, np);
    assert Tail(st, row0[i]) in ahead0 ==> Tail(st, np) in ahead;
  }

  lemma InSlice(row: seq<Rule>, i: nat, r: Rule)
    requires i <= |row|
    ensures r in row[i..] ==> r in row
  {
    if k :| 0 <= k < |row[i..]| && row[i..][k] == r { assert row[i + k] == r; }
  }

  /** ... and the first element that may vanish turns a hollow rule into a hollow copy, new or already
      there. */
  lemma HollowPassedOn(st: seq<State>, row0: seq<Rule>, ps0: seq<State>, row: seq<Rule>, ps: seq<State>, i: nat, c: nat)
    requires Tracks(st, row0, ps0, row, ps, i, c, 0) && 0 < |row[i]| && MarkOf(st, row[i][0]) == CanBeEmpty
    requires RowMarks(st, row, ps, i) && Hollow(st, row0, ps0, i)
    ensures NullAhead(st, WithDuplicate(row, i, 0), StatesWith(row, ps, i, 0), i + 1)
  {
    var np := Minus(row[i], 0);
    CopyAt(st, row0, ps0, row, ps, i, c, 0);
    TailFacts(st, np);
    if np in row {
      HollowAlready(st, row, ps, i, np);
    } else {
      var row', ps' := WithDuplicate(row, i, 0), StatesWith(row, ps, i, 0);
      assert row'[i + 1] == np && ps'[i + 1] == ps[i] && row'[i + 2..] == row[i + 1..];
      assert Hollow(st, row', ps', i + 1);
    }
  }

  lemma HollowAlready(st: seq<State>, row: seq<Rule>, ps: seq<State>, i: nat, np: Rule)
    requires RowMarks(st, row, ps, i) && i < |row| && np in row && np != row[i]
    requires Mix(st, np) && Tail(st, np) != [] && Tail(st, np) !in row[i + 1..]
    requires (AllEmpty(st, np) ==> Tail(st, np) == np)
    ensures NullAhead(st, row, ps, i + 1)
  {
    TailFacts(st, np);
    var k :| 0 <= k < |row| && row[k] == np;
    assert MarkOf(st, row[k][|np| - 1]) == IsEmpty;
    if k < i { assert false; }
    assert row[i + 1..][k - i - 1] == np;
    assert row[k + 1..] == row[i + 1..][k - i..];
    assert Hollow(st, row, ps, k);
  }

  lemma TracksSplit(st: seq<State>, row0: seq<Rule>, ps0: seq<State>, row: seq<Rule>, ps: seq<State>, i: nat, c: nat,
      e: nat)
    requires Tracks(st, row0, ps0, row, ps, i, c, e) && e < |row[i]| && MarkOf(st, row[i][e]) == CanBeEmpty
    ensures Tracks(st, row0, ps0, WithDuplicate(row, i, e), StatesWith(row, ps, i, e), i, c + 1, e + 1)
  {
    var b0, row' := row0[i], WithDuplicate(row, i, e);
    assert row[i][e] == b0[c];
    StripNext(st, b0, c);
    assert row[i] == (Strip(st, b0[..c]) + [b0[c]]) + b0[c + 1..];
    if row' != row { assert row'[i + 1..] == [Minus(row[i], e)] + row[i + 1..]; }
  }

  lemma AccountsSplit(st: seq<State>, row0: seq<Rule>, ps0: seq<State>, row: seq<Rule>, ps: seq<State>, i: nat,
      c: nat, e: nat, coming: bool)
    requires Tracks(st, row0, ps0, row, ps, i, c, e) && e < |row[i]| && MarkOf(st, row[i][e]) == CanBeEmpty
    requires RowMarks(st, row, ps, i) && Accounts(st, row, ps, i, e, Hollow(st, row0, ps0, i), coming)
    requires Hollow(st, row0, ps0, i) ==> coming
    ensures var row', ps' := WithDuplicate(row, i, e), StatesWith(row, ps, i, e);
      Accounts(st, row', ps', i, e + 1, Hollow(st, row0, ps0, i), coming)
  {
    var row', ps' := WithDuplicate(row, i, e), StatesWith(row, ps, i, e);
    assert row'[..i] == row[..i];
    if row' != row {
      AheadInserted(st, row, ps, i, Minus(row[i], e));
      if Hollow(st, row', ps', i + 1) { HollowCopy(st, row0, ps0, row, ps, i, c, e); }
    }
    if e == 0 && Hollow(st, row0, ps0, i) { HollowPassedOn(st, row0, ps0, row, ps, i, c); }
  }

  lemma TracksLeave(st: seq<State>, row0: seq<Rule>, ps0: seq<State>, row: seq<Rule>, ps: seq<State>, i: nat, c: nat,
      e: nat, coming: bool)
    requires Tracks(st, row0, ps0, row, ps, i, c, e) && e == |row[i]|
    requires Accounts(st, row, ps, i, e, Hollow(st, row0, ps0, i), coming)
    ensures NullIn(st, row, ps, i + 1) <==> coming
  {
    var b0 := row0[i];
    assert c == |b0| && b0[..c] == b0;
    StripFacts(st, b0);
    assert row[..i + 1] == row[..i] + [row[i]];
    assert row[i] == Strip(st, b0);
    if row[i] == [] { assert Hollow(st, row0, ps0, i); }
  }

  lemma DropRuleNull(st: seq<State>, row: seq<Rule>, ps: seq<State>, i: nat)
    requires i < |row| == |ps| && ps[i] == IsEmpty
    ensures var row', ps' := row[..i] + row[i + 1..], ps[..i] + ps[i + 1..];
      NullIn(st, row', ps', i) <==> NullIn(st, row, ps, i)
  {
    var row', ps' := row[..i] + row[i + 1..], ps[..i] + ps[i + 1..];
    assert row'[..i] == row[..i];
    forall k | i + 1 <= k < |row| ensures Hollow(st, row, ps, k) <==> Hollow(st, row', ps', k - 1) {
      assert row'[k - 1] == row[k] && ps'[k - 1] == ps[k] && row'[k..] == row[k + 1..];
    }
    if k :| i <= k < |row| && Hollow(st, row, ps, k) { assert Hollow(st, row', ps', k - 1); }
    if k :| i <= k < |row'| && Hollow(st, row', ps', k) { assert Hollow(st, row, ps, k + 1); }
  }

  // ----- termination: a rule outweighs all the copies made of it -----

  function Times(k: nat, x: nat): nat {
    if k == 0 then 0 else x + Times(k - 1, x)
  }

  function Weight(n: nat): nat {
    if n == 0 then 1 else 1 + Times(n, Weight(n - 1))
  }

  function RowWeight(row: seq<Rule>): nat {
    if row == [] then 0 else Weight(|row[0]|) + RowWeight(row[1..])
  }

  lemma {:induction false} TimesGrows(k: nat, m: nat, x: nat, y: nat)
    requires k <= m && x <= y
    ensures Times(k, x) <= Times(m, y)
    decreases m
  {
    if k > 0 {
      TimesGrows(k - 1, m - 1, x, y);
    }
  }

  lemma {:induction false} WeightGrows(n: nat, m: nat)
    requires n <= m
    ensures 1 <= Weight(n) <= Weight(m)
    decreases m
  {
    if n > 0 {
      WeightGrows(n - 1, m - 1);
      TimesGrows(n, m, Weight(n - 1), Weight(m - 1));
    }
  }

  /** A copy of rule i without element j weighs no more than one share of the weight of the rule as
      it was, when it had n elements. */
  lemma CopyWeight(row: seq<Rule>, i: nat, j: nat, n: nat)
    requires i < |row| && j < |row[i]| <= n
    ensures var row' := WithDuplicate(row, i, j);
      RowWeight(row'[i + 1..]) + Times(|row[i]| - j - 1, Weight(n - 1))
      <= RowWeight(row[i + 1..]) + Times(|row[i]| - j, Weight(n - 1))
  {
    var row', np := WithDuplicate(row, i, j), Minus(row[i], j);
    WeightGrows(|np|, n - 1);
    if row' != row {
      assert row'[i + 1..] == [np] + row[i + 1..];
      assert RowWeight(row'[i + 1..]) == Weight(|np|) + RowWeight(row[i + 1..]);
    }
  }

  // ----- dupminus and cleanempty -----

  /** The two parallel lists of symbol s, and nothing else, may change. */
  ghost predicate OnlyRow(R: Rules, ps: seq<seq<State>>, R': Rules, ps': seq<seq<State>>, s: Sym) {
    && |R| == |ps| == |R'| == |ps'| && s < |R| && |R'[s]| == |ps'[s]|
    && R' == R[s := R'[s]] && ps' == ps[s := ps'[s]]
  }

  /** The first loop of dupminus: a copy without element e. */
  method CopyWithout(body: Rule, e: nat) returns (np: Rule)
    requires e < |body|
    ensures np == Minus(body, e)
  {
    np := [];
    var pe := 0;
    while pe < |body|
      invariant 0 <= pe <= |body|
      invariant np == if pe <= e then body[..pe] else body[..e] + body[e + 1..pe]
    {
      if pe != e { np := np + [body[pe]]; }
      pe := pe + 1;
    }
  }

  /** The second loop of dupminus: whether the copy repeats a rule. */
  method IsListed(np: Rule, row: seq<Rule>) returns (found: bool)
    ensures found <==> np in row
  {
    var sp := 0;
    while sp < |row|
      invariant 0 <= sp <= |row| && np !in row[..sp]
    {
      var same := SameRule(np, row[sp]);
      if same {
        return true;
      }
      assert row[..sp + 1] == row[..sp] + [row[sp]];
      sp := sp + 1;
    }
    assert row[..sp] == row;
    return false;
  }

  /** dupminus: copies rule p of s without element e and links the copy behind p, unless it is null or
      repeats a rule of s. */
  method DupMinus(g: Grammar, s: Sym, p: nat, e: nat)
    requires |g.pstate| == |g.rules| && s < |g.rules| && |g.pstate[s]| == |g.rules[s]|
    requires p < |g.rules[s]| && e < |g.rules[s][p]|
    modifies g`rules, g`pstate
    ensures OnlyRow(old(g.rules), old(g.pstate), g.rules, g.pstate, s)
    ensures g.rules[s] == WithDuplicate(old(g.rules[s]), p, e)
    ensures g.pstate[s] == StatesWith(old(g.rules[s]), old(g.pstate[s]), p, e)
  {
    var np := CopyWithout(g.rules[s][p], e);
    var found := IsListed(np, g.rules[s]);
    if np != [] && !found {
      g.pstate := g.pstate[s := g.pstate[s][..p + 1] + [g.pstate[s][p]] + g.pstate[s][p + 1..]];
      g.rules := g.rules[s := g.rules[s][..p + 1] + [np] + g.rules[s][p + 1..]];
    }
  }

  /** Rules ahead marked ISEMPTY have only ISEMPTY elements, finished rules have none. */
  ghost predicate RowMarks(st: seq<State>, row: seq<Rule>, ps: seq<State>, i: nat) {
    && |row| == |ps| && i <= |row|
    && (forall k :: i <= k < |row| && ps[k] == IsEmpty ==> AllEmpty(st, row[k]))
    && (forall k :: 0 <= k < i ==> Clean(st, row[k]))
  }

  /** Some rule is finished or will not be unlinked. */
  ghost predicate Survives(row: seq<Rule>, ps: seq<State>, i: nat) {
    |row| == |ps| && exists k :: 0 <= k < |row| && Stays(ps, i, k)
  }

  ghost predicate Stays(ps: seq<State>, i: nat, k: nat) {
    k < i || (k < |ps| && ps[k] != IsEmpty)
  }

  /** What cleanempty makes of the rules of one symbol. */
  ghost predicate Cleaned(st: seq<State>, src: seq<Rule>, row: seq<Rule>) {
    && row != []
    && (forall q :: q in row ==> Clean(st, q) && FromSource(st, src, q))
    && (forall q :: q != [] && FromSource(st, src, q) ==> q in row)
    && ([] in row <==> LeavesNull(st, src))
  }

  /** The state of affairs at element e of rule p, of which c elements were looked at since it was entered
      with the list row0. */
  ghost predicate AtElement(st: seq<State>, src: seq<Rule>, row0: seq<Rule>, ps0: seq<State>, row: seq<Rule>,
      ps: seq<State>,
      p: nat, c: nat, e: nat, hollow: bool, coming: bool)
  {
    && RowMarks(st, row, ps, p) && Tracks(st, row0, ps0, row, ps, p, c, e) && e <= |row[p]|
    && CompleteAt(st, src, row, p, e) && Sound(st, src, row)
    && Accounts(st, row, ps, p, e, hollow, coming)
  }

  lemma DropAt(st: seq<State>, src: seq<Rule>, row0: seq<Rule>, ps0: seq<State>, row: seq<Rule>, ps: seq<State>,
      p: nat, c: nat, e: nat, hollow: bool, coming: bool)
    requires AtElement(st, src, row0, ps0, row, ps, p, c, e, hollow, coming) && e < |row[p]|
    requires MarkOf(st, row[p][e]) == IsEmpty
    ensures AtElement(st, src, row0, ps0, row[p := Minus(row[p], e)], ps, p, c + 1, e, hollow, coming)
  {
    DropElement(st, src, row, p, e);
    TracksDrop(st, row0, ps0, row, ps, p, c, e);
  }

  lemma SplitAt(st: seq<State>, src: seq<Rule>, row0: seq<Rule>, ps0: seq<State>, row: seq<Rule>, ps: seq<State>,
      p: nat, c: nat, e: nat, hollow: bool, coming: bool)
    requires AtElement(st, src, row0, ps0, row, ps, p, c, e, hollow, coming) && e < |row[p]|
    requires MarkOf(st, row[p][e]) == CanBeEmpty
    requires hollow == Hollow(st, row0, ps0, p) && (hollow ==> coming)
    ensures AtElement(st, src, row0, ps0, WithDuplicate(row, p, e), StatesWith(row, ps, p, e),
      p, c + 1, e + 1, hollow, coming)
  {
    CleanPrefix(st, row0, ps0, row, ps, p, c, e);
    SplitElement(st, src, row, p, e);
    SplitMarks(st, row, ps, p, e);
    TracksSplit(st, row0, ps0, row, ps, p, c, e);
    AccountsSplit(st, row0, ps0, row, ps, p, c, e, coming);
  }

  lemma CleanPrefix(st: seq<State>, row0: seq<Rule>, ps0: seq<State>, row: seq<Rule>, ps: seq<State>, i: nat, c: nat,
      e: nat)
    requires Tracks(st, row0, ps0, row, ps, i, c, e)
    ensures e <= |row[i]| && Clean(st, row[i][..e])
  {
    StripFacts(st, row0[i][..c]);
    assert row[i][..e] == Strip(st, row0[i][..c]);
  }

  lemma EnterAll(st: seq<State>, src: seq<Rule>, row: seq<Rule>, ps: seq<State>, p: nat, hollow: bool, coming: bool)
    requires p < |row| && RowMarks(st, row, ps, p) && ps[p] != IsEmpty && Complete(st, src, row, p)
    requires Sound(st, src, row)
    requires hollow == Hollow(st, row, ps, p) && coming == NullIn(st, row, ps, p)
    ensures AtElement(st, src, row, ps, row, ps, p, 0, 0, hollow, coming) && (hollow ==> coming)
  {
    EnterRule(st, src, row, p);
    TracksEnter(st, row, ps, p);
    if hollow { assert NullAhead(st, row, ps, p); }
  }

  lemma LeaveAll(st: seq<State>, src: seq<Rule>, row0: seq<Rule>, ps0: seq<State>, row: seq<Rule>, ps: seq<State>,
      p: nat, c: nat, e: nat, hollow: bool, coming: bool)
    requires AtElement(st, src, row0, ps0, row, ps, p, c, e, hollow, coming) && e == |row[p]|
    requires hollow == Hollow(st, row0, ps0, p)
    ensures RowMarks(st, row, ps, p + 1) && Complete(st, src, row, p + 1) && (NullIn(st, row, ps, p + 1) <==> coming)
  {
    LeaveRule(st, src, row, p);
    TracksLeave(st, row0, ps0, row, ps, p, c, e, coming);
    CleanPrefix(st, row0, ps0, row, ps, p, c, e);
    assert row[p][..e] == row[p];
  }

  /** The list, the states and the element after the body of cleanempty's inner loop. */
  function NextElement(st: seq<State>, row: seq<Rule>, ps: seq<State>, p: nat, e: nat): (seq<Rule>, seq<State>, nat)
    requires p < |row| == |ps| && e < |row[p]|
  {
    var x := MarkOf(st, row[p][e]);
    if x == IsEmpty then (row[p := Minus(row[p], e)], ps, e)
    else if x == CanBeEmpty then (WithDuplicate(row, p, e), StatesWith(row, ps, p, e), e + 1)
    else (row, ps, e + 1)
  }

  /** The body of cleanempty's inner loop. */
  method CleanElement(g: Grammar, s: Sym, p: nat, e: nat) returns (e': nat)
    requires |g.pstate| == |g.rules| && s < |g.rules| && |g.pstate[s]| == |g.rules[s]|
    requires p < |g.rules[s]| && e < |g.rules[s][p]|
    modifies g`rules, g`pstate
    ensures OnlyRow(old(g.rules), old(g.pstate), g.rules, g.pstate, s)
    ensures (g.rules[s], g.pstate[s], e') == NextElement(g.state, old(g.rules[s]), old(g.pstate[s]), p, e)
  {
    var x := MarkOf(g.state, g.rules[s][p][e]);
    if x == IsEmpty {
      g.rules := g.rules[s := g.rules[s][p := Minus(g.rules[s][p], e)]];
      e' := e;
    } else {
      if x == CanBeEmpty { DupMinus(g, s, p, e); }
      e' := e + 1;
    }
  }

  /** What the inner loop keeps: besides, what is left of rule p and the rules behind it do not outweigh the rule as
      it was entered and the rules that were behind it then. */
  ghost predicate Working(st: seq<State>, src: seq<Rule>, row0: seq<Rule>, ps0: seq<State>,
      row: seq<Rule>, ps: seq<State>, p: nat, c: nat, e: nat, hollow: bool, coming: bool)
  {
    && AtElement(st, src, row0, ps0, row, ps, p, c, e, hollow, coming) && |row[p]| <= |row0[p]|
    && RowWeight(row[p + 1..]) + Times(|row[p]| - e, Share(|row0[p]|))
      <= RowWeight(row0[p + 1..]) + Times(|row0[p]|, Share(|row0[p]|))
  }

  function Share(n: nat): nat {
    if n == 0 then 0 else Weight(n - 1)
  }

  lemma ElementWeight(st: seq<State>, row: seq<Rule>, ps: seq<State>, p: nat, e: nat, n: nat)
    requires p < |row| == |ps| && e < |row[p]| <= n
    ensures var (row', _, e') := NextElement(st, row, ps, p, e);
      && p < |row'| && |row'[p]| <= |row[p]| && |row'[p]| - e' == |row[p]| - e - 1
      && RowWeight(row'[p + 1..]) + Times(|row'[p]| - e', Share(n)) <=
        RowWeight(row[p + 1..]) + Times(|row[p]| - e, Share(n))
  {
    TimesGrows(|row[p]| - 1 - e, |row[p]| - e, Share(n), Share(n));
    CopyWeight(row, p, e, n);
    assert row[p := Minus(row[p], e)][p + 1..] == row[p + 1..];
  }

  lemma ElementStep(st: seq<State>, src: seq<Rule>, row0: seq<Rule>, ps0: seq<State>,
      row: seq<Rule>, ps: seq<State>, p: nat, c: nat, e: nat, hollow: bool, coming: bool)
    requires AllMarks(st) && p < |row0| && hollow == Hollow(st, row0, ps0, p) && (hollow ==> coming)
    requires AtElement(st, src, row0, ps0, row, ps, p, c, e, hollow, coming) && e < |row[p]|
    ensures var (row', ps', e') := NextElement(st, row, ps, p, e);
      AtElement(st, src, row0, ps0, row', ps', p, c + 1, e', hollow, coming)
  {
    var x := MarkOf(st, row[p][e]);
    if x == IsEmpty {
      DropAt(st, src, row0, ps0, row, ps, p, c, e, hollow, coming);
    } else if x == CanBeEmpty {
      SplitAt(st, src, row0, ps0, row, ps, p, c, e, hollow, coming);
    } else {
      PassElement(st, src, row, p, e);
      TracksPass(st, row0, ps0, row, ps, p, c, e);
    }
  }

  lemma WorkingStart(st: seq<State>, src: seq<Rule>, row: seq<Rule>, ps: seq<State>, p: nat, hollow: bool, coming: bool)
    requires p < |row| && AtElement(st, src, row, ps, row, ps, p, 0, 0, hollow, coming)
    ensures Working(st, src, row, ps, row, ps, p, 0, 0, hollow, coming)
  {
  }

  lemma WorkingStep(st: seq<State>, src: seq<Rule>, row0: seq<Rule>, ps0: seq<State>,
      row: seq<Rule>, ps: seq<State>, p: nat, c: nat, e: nat, hollow: bool, coming: bool)
    requires AllMarks(st) && p < |row0| && hollow == Hollow(st, row0, ps0, p) && (hollow ==> coming)
    requires Working(st, src, row0, ps0, row, ps, p, c, e, hollow, coming) && e < |row[p]|
    ensures var (row', ps', e') := NextElement(st, row, ps, p, e);
      && Working(st, src, row0, ps0, row', ps', p, c + 1, e', hollow, coming) && |row'[p]| - e' < |row[p]| - e
  {
    ElementStep(st, src, row0, ps0, row, ps, p, c, e, hollow, coming);
    ElementWeight(st, row, ps, p, e, |row0[p]|);
  }

  /** cleanempty's inner loop. */
  method CleanElements(g: Grammar, s: Sym, p: nat, ghost src: seq<Rule>, ghost hollow: bool, ghost coming: bool)
    returns (ghost c: nat)
    requires |g.pstate| == |g.rules| && s < |g.rules| && p < |g.rules[s]| && AllMarks(g.state)
    requires hollow == Hollow(g.state, g.rules[s], g.pstate[s], p) && (hollow ==> coming)
    requires AtElement(g.state, src, g.rules[s], g.pstate[s], g.rules[s], g.pstate[s], p, 0, 0, hollow, coming)
    modifies g`rules, g`pstate
    ensures OnlyRow(old(g.rules), old(g.pstate), g.rules, g.pstate, s) && p < |g.rules[s]|
    ensures Working(g.state, src, old(g.rules[s]), old(g.pstate[s]), g.rules[s], g.pstate[s], p, c, |g.rules[s][p]|,
      hollow, coming)
  {
    ghost var R0, P0, st := g.rules, g.pstate, g.state;
    var e: nat := 0;
    c := 0;
    WorkingStart(st, src, R0[s], P0[s], p, hollow, coming);
    while e < |g.rules[s][p]|
      invariant OnlyRow(R0, P0, g.rules, g.pstate, s) && p < |g.rules[s]| && e <= |g.rules[s][p]|
      invariant Working(st, src, R0[s], P0[s], g.rules[s], g.pstate[s], p, c, e, hollow, coming)
      decreases |g.rules[s][p]| - e
    {
      WorkingStep(st, src, R0[s], P0[s], g.rules[s], g.pstate[s], p, c, e, hollow, coming);
      e := CleanElement(g, s, p, e);
      c := c + 1;
    }
  }

  /** The inner loop is done: rule p is finished, and all its copies together weigh less than it did. */
  lemma RuleDone(st: seq<State>, src: seq<Rule>, row0: seq<Rule>, ps0: seq<State>, row: seq<Rule>, ps: seq<State>,
      p: nat, c: nat, hollow: bool, coming: bool)
    requires p < |row0| && p < |row| && Working(st, src, row0, ps0, row, ps, p, c, |row[p]|, hollow, coming)
    requires AtRule(st, src, row0, ps0, p) && hollow == Hollow(st, row0, ps0, p) && coming == NullIn(st, row0, ps0, p)
    ensures AtRule(st, src, row, ps, p + 1) && RowWeight(row[p + 1..]) < RowWeight(row0[p..])
  {
    LeaveAll(st, src, row0, ps0, row, ps, p, c, |row[p]|, hollow, coming);
    assert Stays(ps, p + 1, p);
    assert row0[p..][1..] == row0[p + 1..];
  }

  /** The body of cleanempty's outer loop for a rule that is not ISEMPTY. */
  method CleanRule(g: Grammar, s: Sym, p: nat, ghost src: seq<Rule>)
    requires |g.pstate| == |g.rules| && s < |g.rules| && p < |g.rules[s]| && AllMarks(g.state)
    requires AtRule(g.state, src, g.rules[s], g.pstate[s], p) && g.pstate[s][p] != IsEmpty
    modifies g`rules, g`pstate
    ensures OnlyRow(old(g.rules), old(g.pstate), g.rules, g.pstate, s) && p < |g.rules[s]|
    ensures AtRule(g.state, src, g.rules[s], g.pstate[s], p + 1)
    ensures RowWeight(g.rules[s][p + 1..]) < RowWeight(old(g.rules[s][p..]))
  {
    ghost var st, row0, ps0 := g.state, g.rules[s], g.pstate[s];
    ghost var hollow, coming := Hollow(st, row0, ps0, p), NullIn(st, row0, ps0, p);
    EnterAll(st, src, row0, ps0, p, hollow, coming);
    ghost var c := CleanElements(g, s, p, src, hollow, coming);
    RuleDone(st, src, row0, ps0, g.rules[s], g.pstate[s], p, c, hollow, coming);
  }

  lemma SplitMarks(st: seq<State>, row: seq<Rule>, ps: seq<State>, i: nat, j: nat)
    requires RowMarks(st, row, ps, i) && i < |row| && j < |row[i]| && ps[i] != IsEmpty
    ensures RowMarks(st, WithDuplicate(row, i, j), StatesWith(row, ps, i, j), i)
  {
    var row', ps' := WithDuplicate(row, i, j), StatesWith(row, ps, i, j);
    if row' != row {
      forall k | 0 <= k < |row'|
        ensures i <= k && ps'[k] == IsEmpty ==> AllEmpty(st, row'[k])
        ensures k < i ==> Clean(st, row'[k])
      {
        if k != i + 1 {
          var o := if k <= i then k else k - 1;
          assert row'[k] == row[o] && ps'[k] == ps[o];
        }
      }
    }
  }

  /** Deletes production p of s. */
  method UnlinkRule(g: Grammar, s: Sym, p: nat)
    requires |g.pstate| == |g.rules| && s < |g.rules| && |g.pstate[s]| == |g.rules[s]| && p < |g.rules[s]|
    modifies g`rules, g`pstate
    ensures OnlyRow(old(g.rules), old(g.pstate), g.rules, g.pstate, s)
    ensures g.rules[s] == old(g.rules[s][..p] + g.rules[s][p + 1..]) && g.rules[s][p..] == old(g.rules[s][p + 1..])
    ensures g.pstate[s] == old(g.pstate[s][..p] + g.pstate[s][p + 1..])
  {
    g.rules := g.rules[s := g.rules[s][..p] + g.rules[s][p + 1..]];
    g.pstate := g.pstate[s := g.pstate[s][..p] + g.pstate[s][p + 1..]];
  }

  /** What the marking phase leaves for one symbol with mark m. */
  ghost predicate MarkedRow(st: seq<State>, m: State, src: seq<Rule>, ps: seq<State>) {
    && |src| == |ps| && (m != IsEmpty ==> exists k :: 0 <= k < |src| && Stays(ps, 0, k))
    && forall k :: 0 <= k < |src| ==> (ps[k] == IsEmpty <==> AllEmpty(st, src[k]))
  }

  /** Some rule of the list can lose all its elements, not all of them ISEMPTY; it ends in ISEMPTY elements,
      and those are not the body of a rule listed after it. */
  ghost predicate LeavesNull(st: seq<State>, src: seq<Rule>) {
    exists k :: 0 <= k < |src| && Mix(st, src[k]) && !AllEmpty(st, src[k]) &&
      Tail(st, src[k]) != [] && Tail(st, src[k]) !in src[k + 1..]
  }

  /** The state of affairs before rule p. */
  ghost predicate AtRule(st: seq<State>, src: seq<Rule>, row: seq<Rule>, ps: seq<State>, p: nat) {
    && RowMarks(st, row, ps, p) && Survives(row, ps, p) && Complete(st, src, row, p) && Sound(st, src, row)
    && (NullIn(st, row, ps, p) <==> LeavesNull(st, src))
  }

  lemma StartRow(st: seq<State>, m: State, src: seq<Rule>, ps: seq<State>)
    requires MarkedRow(st, m, src, ps) && m != IsEmpty
    ensures AtRule(st, src, src, ps, 0)
  {
    StartComplete(st, src);
    assert src[..0] == [];
    if k :| 0 <= k < |src| && Hollow(st, src, ps, k) { assert LeavesNull(st, src); }
    if LeavesNull(st, src) {
      var k :| 0 <= k < |src| && Mix(st, src[k]) && !AllEmpty(st, src[k]) &&
        Tail(st, src[k]) != [] && Tail(st, src[k]) !in src[k + 1..];
      assert Hollow(st, src, ps, k);
    }
  }

  /** cleanempty for a symbol that is not ISEMPTY: its rules become exactly the variants of its old
      rules, except that the null variant is there exactly when LeavesNull says so. */
  method CleanEmpty(g: Grammar, s: Sym)
    requires |g.state| == |g.pstate| == |g.rules| && s < |g.rules| && AllMarks(g.state)
    requires MarkedRow(g.state, g.state[s], g.rules[s], g.pstate[s])
    modifies g`rules, g`pstate
    ensures OnlyRow(old(g.rules), old(g.pstate), g.rules, g.pstate, s)
    ensures g.state[s] == IsEmpty ==> g.rules == old(g.rules)
    ensures g.state[s] != IsEmpty ==> Cleaned(g.state, old(g.rules[s]), g.rules[s])
  {
    if g.state[s] == IsEmpty { return; }
    ghost var R0, P0, st := g.rules, g.pstate, g.state;
    ghost var src := R0[s];
    StartRow(st, g.state[s], src, g.pstate[s]);
    var p := 0;
    while p < |g.rules[s]|
      invariant OnlyRow(R0, P0, g.rules, g.pstate, s) && AtRule(st, src, g.rules[s], g.pstate[s], p)
      decreases RowWeight(g.rules[s][p..])
    {
      if g.pstate[s][p] == IsEmpty {
        DropAtRule(st, src, g.rules[s], g.pstate[s], p);
        UnlinkRule(g, s, p);
      } else {
        CleanRule(g, s, p, src);
        p := p + 1;
      }
    }
    Finished(st, src, g.rules[s], g.pstate[s]);
  }

  lemma DropAtRule(st: seq<State>, src: seq<Rule>, row: seq<Rule>, ps: seq<State>, p: nat)
    requires AtRule(st, src, row, ps, p) && p < |row| && ps[p] == IsEmpty
    ensures AtRule(st, src, row[..p] + row[p + 1..], ps[..p] + ps[p + 1..], p)
    ensures RowWeight(row[p + 1..]) < RowWeight(row[p..])
  {
    DropRule(st, src, row, p);
    DropRuleMarks(st, row, ps, p);
    DropRuleNull(st, row, ps, p);
    assert row[p..][1..] == row[p + 1..];
    WeightGrows(0, |row[p]|);
  }

  lemma DropRuleMarks(st: seq<State>, row: seq<Rule>, ps: seq<State>, i: nat)
    requires RowMarks(st, row, ps, i) && Survives(row, ps, i) && i < |row| && ps[i] == IsEmpty
    ensures var row', ps' := row[..i] + row[i + 1..], ps[..i] + ps[i + 1..];
      RowMarks(st, row', ps', i) && Survives(row', ps', i)
  {
    var row', ps' := row[..i] + row[i + 1..], ps[..i] + ps[i + 1..];
    forall k | 0 <= k < |row'|
      ensures row'[k] == row[if k < i then k else k + 1] && ps'[k] == ps[if k < i then k else k + 1]
    {
    }
    var k :| 0 <= k < |row| && Stays(ps, i, k);
    assert Stays(ps', i, if k < i then k else k - 1);
  }

  lemma Finished(st: seq<State>, src: seq<Rule>, row: seq<Rule>, ps: seq<State>)
    requires AtRule(st, src, row, ps, |row|)
    ensures Cleaned(st, src, row)
  {
    assert row[..|row|] == row;
    forall q | q in row ensures Clean(st, q) && FromSource(st, src, q) {
      var k :| 0 <= k < |row| && row[k] == q;
      CleanVariant(st, q);
      assert Variant(st, row[k], q);
    }
    forall q | q != [] && FromSource(st, src, q) ensures q in row {
      var r :| r in src && Variant(st, r, q);
      assert Covered(st, row, |row|, r, q);
    }
  }
}
