/** EBNF expressions, how readg lays them out over productions, and what extractuntil finds in them. */
module Ebnf {
  import opened Wrappers
  import opened Grammars
  import opened Deebnfing

  /** The items of one alternative, and the alternatives of a group or of a symbol. */
  datatype Items = End | Use(s: Sym, tail: Items) | Group(kind: Kind, alts: Alts, tail: Items)
  datatype Alts = Only(items: Items) | Either(items: Items, more: Alts)

  /** Joins the last production of x to the first of y. */
  function Glue(x: seq<Rule>, y: seq<Rule>): (z: seq<Rule>)
    requires x != [] && y != []
    ensures z != []
  {
    x[..|x| - 1] + [x[|x| - 1] + y[0]] + y[1..]
  }

  /** The productions that readg holds for an alternative: the bars inside brackets cut it up. */
  function FlatItems(m: Metas, i: Items): (rows: seq<Rule>)
    ensures rows != []
  {
    match i
    case End => [[]]
    case Use(s, tail) => Glue([[s]], FlatItems(m, tail))
    case Group(k, a, tail) => Glue([[m.Left(k)]], Glue(Flat(m, a), Glue([[m.Right(k)]], FlatItems(m, tail))))
  }

  function Flat(m: Metas, a: Alts): (rows: seq<Rule>)
    ensures rows != []
  {
    match a
    case Only(i) => FlatItems(m, i)
    case Either(i, more) => FlatItems(m, i) + Flat(m, more)
  }

  /** No bracket is used as a symbol, and no alternative inside brackets is empty. */
  predicate PlainItems(m: Metas, i: Items) {
    match i
    case End => true
    case Use(s, tail) => !m.IsMeta(s) && PlainItems(m, tail)
    case Group(_, a, tail) => Plain(m, a) && NoEnd(a) && PlainItems(m, tail)
  }

  predicate Plain(m: Metas, a: Alts) {
    match a
    case Only(i) => PlainItems(m, i)
    case Either(i, more) => PlainItems(m, i) && Plain(m, more)
  }

  predicate NoEnd(a: Alts) {
    match a
    case Only(i) => i != End
    case Either(i, more) => i != End && NoEnd(more)
  }

  // ----- glueing -----

  lemma GlueUnit(x: seq<Rule>)
    requires x != []
    ensures Glue([[]], x) == x && Glue(x, [[]]) == x
  {
    assert [] + x[0] == x[0] && x == [x[0]] + x[1..];
    assert x[|x| - 1] + [] == x[|x| - 1] && x == x[..|x| - 1] + [x[|x| - 1]];
  }

  lemma GlueAssoc(x: seq<Rule>, y: seq<Rule>, z: seq<Rule>)
    requires x != [] && y != [] && z != []
    ensures Glue(Glue(x, y), z) == Glue(x, Glue(y, z))
  {
    var a, b := Glue(Glue(x, y), z), Glue(x, Glue(y, z));
    if |y| == 1 {
      assert (x[|x| - 1] + y[0]) + z[0] == x[|x| - 1] + (y[0] + z[0]);
      assert Glue(x, y) == x[..|x| - 1] + [x[|x| - 1] + y[0]];
      assert Glue(x, y)[..|x| - 1] == x[..|x| - 1];
      assert Glue(y, z) == [y[0] + z[0]] + z[1..];
    } else {
      assert y[1..] == y[1..|y| - 1] + [y[|y| - 1]];
      assert y[..|y| - 1] == [y[0]] + y[1..|y| - 1];
      var h := x[..|x| - 1] + [x[|x| - 1] + y[0]] + y[1..|y| - 1];
      assert Glue(x, y) == h + [y[|y| - 1]];
      assert Glue(y, z) == [y[0]] + (y[1..|y| - 1] + [y[|y| - 1] + z[0]] + z[1..]);
      assert a == h + [y[|y| - 1] + z[0]] + z[1..];
      assert b == h + [y[|y| - 1] + z[0]] + z[1..];
    }
  }

  /** Concatenating production lists is glueing across an empty production. */
  lemma ConcatGlue(x: seq<Rule>, y: seq<Rule>, z: seq<Rule>)
    requires x != [] && y != [] && z != []
    ensures Glue(x + y, z) == x + Glue(y, z)
    ensures Glue(x, [[]] + y) == x + y
  {
    assert (x + y)[..|x + y| - 1] == x + y[..|y| - 1] && (x + y)[|x + y| - 1] == y[|y| - 1];
    assert x[|x| - 1] + [] == x[|x| - 1] && x == x[..|x| - 1] + [x[|x| - 1]] && ([[]] + y)[1..] == y;
  }

  // ----- a scan passes over a balanced stretch -----

  /** x with y glued before what it takes. */
  function After(y: seq<Rule>, x: Extract): Extract
    requires y != [] && x.taken != []
  {
    x.(taken := Glue(y, x.taken))
  }

  lemma AfterGlue(x: seq<Rule>, y: seq<Rule>, ex: Extract)
    requires x != [] && y != [] && ex.taken != []
    ensures After(x, After(y, ex)) == After(Glue(x, y), ex)
  {
    GlueAssoc(x, y, ex.taken);
  }

  function Level(l: Sym, r: Sym, t: Sym, nest: nat): nat
    requires !(t == r && nest == 0)
  {
    if t == r then nest - 1 else if t == l then nest + 1 else nest
  }

  lemma CloseToken(l: Sym, r: Sym, t: Sym, body: Rule, nest: nat)
    requires !(t == r && nest == 0)
    ensures Close(l, r, [t] + body, nest) == match Close(l, r, body, Level(l, r, t, nest))
      case Found(j) => Found(j + 1)
      case NotFound(n) => NotFound(n)
  {
    assert ([t] + body)[1..] == body;
  }

  /** A scan over one symbol that does not end it. */
  lemma ScanToken(l: Sym, r: Sym, t: Sym, rows: seq<Rule>, nest: nat)
    requires rows != [] && !(t == r && nest == 0)
    ensures Scan(l, r, Glue([[t]], rows), nest) == After([[t]], Scan(l, r, rows, Level(l, r, t, nest)))
  {
    var n := Level(l, r, t, nest);
    var row, more := [t] + rows[0], rows[1..];
    var glued := [row] + more;
    assert Glue([[t]], rows) == glued && glued[1..] == more;
    CloseToken(l, r, t, rows[0], nest);
    CloseInside(l, r, rows[0], n);
    match Close(l, r, rows[0], n)
    case Found(j) =>
      assert row[..j + 1] == [t] + rows[0][..j] && row[j + 2..] == rows[0][j + 1..];
      assert Glue([[t]], [rows[0][..j]]) == [[t] + rows[0][..j]];
    case NotFound(n') =>
      if more == [] {
        assert rows == [rows[0]] && glued == [row];
      } else {
        var x := Scan(l, r, more, n');
        assert Glue([[t]], [rows[0]] + x.taken) == [row] + x.taken;
      }
  }

  /** The closing bracket at level zero ends the scan. */
  lemma ScanEnds(l: Sym, r: Sym, rows: seq<Rule>)
    requires rows != []
    ensures Scan(l, r, Glue([[r]], rows), 0) == Extract([[]], rows[0], rows[1..], true)
  {
    var glued := Glue([[r]], rows);
    assert glued[0] == [r] + rows[0] && glued[1..] == rows[1..];
    assert glued[0][..0] == [] && glued[0][1..] == rows[0];
  }

  lemma ScanBar(l: Sym, r: Sym, rows: seq<Rule>, nest: nat)
    requires rows != []
    ensures Scan(l, r, [[]] + rows, nest) == (var x := Scan(l, r, rows, nest); x.(taken := [[]] + x.taken))
  {
    assert ([[]] + rows)[1..] == rows;
  }

  lemma {:induction false} ScanItems(m: Metas, k: Kind, i: Items, z: seq<Rule>, nest: nat)
    requires m.Distinct() && PlainItems(m, i) && z != []
    ensures Scan(m.Left(k), m.Right(k), Glue(FlatItems(m, i), z), nest) ==
      After(FlatItems(m, i), Scan(m.Left(k), m.Right(k), z, nest))
    decreases i, 1
  {
    var l, r := m.Left(k), m.Right(k);
    match i
    case End =>
      GlueUnit(z);
      GlueUnit(Scan(l, r, z, nest).taken);
    case Use(s, tail) =>
      var f := FlatItems(m, tail);
      GlueAssoc([[s]], f, z);
      ScanToken(l, r, s, Glue(f, z), nest);
      ScanItems(m, k, tail, z, nest);
      AfterGlue([[s]], f, Scan(l, r, z, nest));
    case Group(k', a, tail) =>
      ScanGroup(m, k, k', a, tail, z, nest);
  }

  lemma Glue4(a: seq<Rule>, b: seq<Rule>, c: seq<Rule>, d: seq<Rule>, z: seq<Rule>)
    requires a != [] && b != [] && c != [] && d != [] && z != []
    ensures Glue(Glue(a, Glue(b, Glue(c, d))), z) == Glue(a, Glue(b, Glue(c, Glue(d, z))))
  {
    GlueAssoc(a, Glue(b, Glue(c, d)), z);
    GlueAssoc(b, Glue(c, d), z);
    GlueAssoc(c, d, z);
  }

  lemma After4(a: seq<Rule>, b: seq<Rule>, c: seq<Rule>, d: seq<Rule>, x: Extract)
    requires a != [] && b != [] && c != [] && d != [] && x.taken != []
    ensures After(Glue(a, Glue(b, Glue(c, d))), x) == After(a, After(b, After(c, After(d, x))))
  {
    AfterGlue(c, d, x);
    AfterGlue(b, Glue(c, d), x);
    AfterGlue(a, Glue(b, Glue(c, d)), x);
  }

  /** The nesting inside a group of kind k', counted for brackets of kind k. */
  function Inner(k: Kind, k': Kind, nest: nat): nat {
    if k' == k then nest + 1 else nest
  }

  lemma BracketLevels(m: Metas, k: Kind, k': Kind, nest: nat)
    requires m.Distinct()
    ensures m.Left(k') != m.Right(k) && !(m.Right(k') == m.Right(k) && Inner(k, k', nest) == 0)
    ensures Level(m.Left(k), m.Right(k), m.Left(k'), nest) == Inner(k, k', nest)
    ensures Level(m.Left(k), m.Right(k), m.Right(k'), Inner(k, k', nest)) == nest
  {
  }

  lemma ScanOpen(m: Metas, k: Kind, k': Kind, rows: seq<Rule>, nest: nat)
    requires m.Distinct() && rows != []
    ensures Scan(m.Left(k), m.Right(k), Glue([[m.Left(k')]], rows), nest)
         == After([[m.Left(k')]], Scan(m.Left(k), m.Right(k), rows, Inner(k, k', nest)))
  {
    BracketLevels(m, k, k', nest);
    ScanToken(m.Left(k), m.Right(k), m.Left(k'), rows, nest);
  }

  lemma ScanClose(m: Metas, k: Kind, k': Kind, rows: seq<Rule>, nest: nat)
    requires m.Distinct() && rows != []
    ensures Scan(m.Left(k), m.Right(k), Glue([[m.Right(k')]], rows), Inner(k, k', nest))
         == After([[m.Right(k')]], Scan(m.Left(k), m.Right(k), rows, nest))
  {
    BracketLevels(m, k, k', nest);
    ScanToken(m.Left(k), m.Right(k), m.Right(k'), rows, Inner(k, k', nest));
  }

  lemma {:induction false} ScanGroup(m: Metas, k: Kind, k': Kind, a: Alts, tail: Items, z: seq<Rule>, nest: nat)
    requires m.Distinct() && Plain(m, a) && PlainItems(m, tail) && z != []
    ensures var i := FlatItems(m, Group(k', a, tail));
      Scan(m.Left(k), m.Right(k), Glue(i, z), nest) == After(i, Scan(m.Left(k), m.Right(k), z, nest))
    decreases Group(k', a, tail), 0
  {
    var open, close := [[m.Left(k')]], [[m.Right(k')]];
    var fa, ft := Flat(m, a), FlatItems(m, tail);
    var y := Glue(ft, z);
    Glue4(open, fa, close, ft, z);
    ScanOpen(m, k, k', Glue(fa, Glue(close, y)), nest);
    ScanAlts(m, k, a, Glue(close, y), Inner(k, k', nest));
    ScanClose(m, k, k', y, nest);
    ScanItems(m, k, tail, z, nest);
    After4(open, fa, close, ft, Scan(m.Left(k), m.Right(k), z, nest));
  }

  lemma {:induction false} ScanAlts(m: Metas, k: Kind, a: Alts, z: seq<Rule>, nest: nat)
    requires m.Distinct() && Plain(m, a) && z != []
    ensures Scan(m.Left(k), m.Right(k), Glue(Flat(m, a), z), nest) ==
      After(Flat(m, a), Scan(m.Left(k), m.Right(k), z, nest))
    decreases a, 1
  {
    match a
    case Only(i) => ScanItems(m, k, i, z, nest);
    case Either(i, more) =>
      var l, r := m.Left(k), m.Right(k);
      var fi, fm := FlatItems(m, i), Flat(m, more);
      ConcatGlue(fi, fm, z);
      ConcatGlue(fi, Glue(fm, z), z);
      ScanItems(m, k, i, [[]] + Glue(fm, z), nest);
      ScanBar(l, r, Glue(fm, z), nest);
      ScanAlts(m, k, more, z, nest);
      var t := Scan(l, r, z, nest).taken;
      ConcatGlue(fi, Glue(fm, t), z);
      ConcatGlue(fi, fm, t);
  }

  /** What extractuntil finds behind the opening bracket of a group: the group, and nothing of the rest. */
  lemma ExtractGroup(m: Metas, k: Kind, a: Alts, rest: seq<Rule>)
    requires m.Distinct() && Plain(m, a) && rest != []
    ensures Scan(m.Left(k), m.Right(k), Glue(Flat(m, a), Glue([[m.Right(k)]], rest)), 0)
         == Extract(Flat(m, a), rest[0], rest[1..], true)
  {
    ScanAlts(m, k, a, Glue([[m.Right(k)]], rest), 0);
    ScanEnds(m.Left(k), m.Right(k), rest);
    GlueUnit(Flat(m, a));
  }

  // ----- no production of a group is empty -----

  ghost predicate NoneNull(rows: seq<Rule>) {
    forall k :: 0 <= k < |rows| ==> rows[k] != []
  }

  ghost predicate TailNonNull(rows: seq<Rule>) {
    forall k :: 0 < k < |rows| ==> rows[k] != []
  }

  lemma GlueNonNull(x: seq<Rule>, y: seq<Rule>)
    requires x != [] && y != [] && NoneNull(x) && TailNonNull(y)
    ensures NoneNull(Glue(x, y))
  {
    var z := Glue(x, y);
    forall k | 0 <= k < |z| ensures z[k] != [] {
      if k < |x| - 1 {
        assert z[k] == x[k];
      } else if k == |x| - 1 {
        assert z[k] == x[k] + y[0] && |z[k]| >= |x[k]|;
      } else {
        assert z[k] == y[k - |x| + 1];
      }
    }
  }

  lemma {:induction false} ItemsNonNull(m: Metas, i: Items)
    requires PlainItems(m, i)
    ensures TailNonNull(FlatItems(m, i)) && (i != End ==> NoneNull(FlatItems(m, i)))
    decreases i
  {
    match i
    case End =>
    case Use(s, tail) =>
      ItemsNonNull(m, tail);
      GlueNonNull([[s]], FlatItems(m, tail));
    case Group(k, a, tail) =>
      ItemsNonNull(m, tail);
      AltsNonNull(m, a);
      GlueNonNull([[m.Right(k)]], FlatItems(m, tail));
      GlueNonNull(Flat(m, a), Glue([[m.Right(k)]], FlatItems(m, tail)));
      GlueNonNull([[m.Left(k)]], Glue(Flat(m, a), Glue([[m.Right(k)]], FlatItems(m, tail))));
  }

  lemma {:induction false} AltsNonNull(m: Metas, a: Alts)
    requires Plain(m, a) && NoEnd(a)
    ensures NoneNull(Flat(m, a))
    decreases a
  {
    match a
    case Only(i) => ItemsNonNull(m, i);
    case Either(i, more) =>
      ItemsNonNull(m, i);
      AltsNonNull(m, more);
      ConcatNonNull(FlatItems(m, i), Flat(m, more));
  }

  lemma ConcatNonNull(x: seq<Rule>, y: seq<Rule>)
    requires NoneNull(x) && NoneNull(y)
    ensures NoneNull(x + y)
  {
  }

  lemma {:induction false} FillNothing(e: Option<Sym>, rows: seq<Rule>)
    requires NoneNull(rows)
    ensures FillAll(e, rows) == rows && [] !in rows
  {
    if rows != [] {
      assert rows[0] != [] && rows == [rows[0]] + rows[1..];
      FillNothing(e, rows[1..]);
    }
  }
}
