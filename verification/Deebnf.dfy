/** deebnf.c: rewrites Wirth-style EBNF into plain BNF.

    The brackets are ordinary symbols of the grammar that readg read, and a bracketed group with
    alternatives runs across production boundaries: a ::= b ( c | d ) e is held as the two
    productions  b ( c  and  d ) e. */
module Deebnfing {
  import opened Wrappers
  import opened Grammars

  datatype Kind = Paren | Square | Curly

  /** The six metasymbols. */
  datatype Metas = Metas(lparen: Sym, rparen: Sym, lsquare: Sym, rsquare: Sym, lcurly: Sym, rcurly: Sym) {
    function Left(k: Kind): Sym {
      match k case Paren => lparen case Square => lsquare case Curly => lcurly
    }

    function Right(k: Kind): Sym {
      match k case Paren => rparen case Square => rsquare case Curly => rcurly
    }

    predicate IsLeft(s: Sym) { s == lparen || s == lsquare || s == lcurly }

    predicate IsRight(s: Sym) { s == rparen || s == rsquare || s == rcurly }

    predicate IsMeta(s: Sym) { IsLeft(s) || IsRight(s) }

    predicate Distinct() {
      && lparen != lsquare && lparen != lcurly && lsquare != lcurly
      && rparen != rsquare && rparen != rcurly && rsquare != rcurly
      && !IsLeft(rparen) && !IsLeft(rsquare) && !IsLeft(rcurly)
    }

    predicate Below(n: nat) {
      lparen < n && rparen < n && lsquare < n && rsquare < n && lcurly < n && rcurly < n
    }
  }

  // ----- what extractuntil takes out -----

  /** The balancing bracket r in one production, l being the bracket that nests: whether it was found,
      where, and the nesting level at the end of the production if not. */
  datatype Closing = Found(at: nat) | NotFound(nest: nat)

  function Close(l: Sym, r: Sym, body: Rule, nest: nat): Closing {
    if body == [] then NotFound(nest)
    else if body[0] == r && nest == 0 then Found(0)
    else
      var n := if body[0] == r then nest - 1 else if body[0] == l then nest + 1 else nest;
      match Close(l, r, body[1..], n)
      case Found(j) => Found(j + 1)
      case NotFound(n') => NotFound(n')
  }

  /** The bracketed productions, what follows the closing bracket in its production, the productions after
      that one, and whether there was a closing bracket at all. */
  datatype Extract = Extract(taken: seq<Rule>, tail: Rule, left: seq<Rule>, found: bool)

  function Scan(l: Sym, r: Sym, rows: seq<Rule>, nest: nat): (x: Extract)
    requires rows != []
    ensures x.taken != []
  {
    match Close(l, r, rows[0], nest)
    case Found(j) =>
      if j < |rows[0]| then Extract([rows[0][..j]], rows[0][j + 1..], rows[1..], true) else Extract([[]], [], [], false)
    case NotFound(n) =>
      if |rows| == 1 then Extract(rows, [], [], false)
      else
        var x := Scan(l, r, rows[1..], n);
        x.(taken := [rows[0]] + x.taken)
  }

  lemma {:induction false} CloseInside(l: Sym, r: Sym, body: Rule, nest: nat)
    ensures Close(l, r, body, nest).Found? ==>
      Close(l, r, body, nest).at < |body| && body[Close(l, r, body, nest).at] == r
  {
    if body != [] {
      CloseInside(l, r, body[1..],
        if body[0] == r && nest > 0 then nest - 1 else if body[0] == l then nest + 1 else nest);
    }
  }

  /** A bracketed production with nothing in it is given the empty symbol, if there is one. */
  function Fill(e: Option<Sym>, body: Rule): Rule {
    if body == [] && e.Some? then [e.value] else body
  }

  function FillAll(e: Option<Sym>, rows: seq<Rule>): seq<Rule> {
    if rows == [] then [] else [Fill(e, rows[0])] + FillAll(e, rows[1..])
  }

  // ----- counting -----

  function Lefts(m: Metas, body: Rule): nat {
    if body == [] then 0 else (if m.IsLeft(body[0]) then 1 else 0) + Lefts(m, body[1..])
  }

  function RowLefts(m: Metas, rows: seq<Rule>): nat {
    if rows == [] then 0 else Lefts(m, rows[0]) + RowLefts(m, rows[1..])
  }

  function Size(rows: seq<Rule>): nat {
    if rows == [] then 0 else |rows[0]| + Size(rows[1..])
  }

  lemma {:induction false} LeftsConcat(m: Metas, a: Rule, b: Rule)
    ensures Lefts(m, a + b) == Lefts(m, a) + Lefts(m, b)
  {
    if a == [] {
      assert a + b == b;
    } else {
      assert (a + b)[1..] == a[1..] + b;
      LeftsConcat(m, a[1..], b);
    }
  }

  lemma {:induction false} RowsConcat(m: Metas, a: seq<Rule>, b: seq<Rule>)
    ensures RowLefts(m, a + b) == RowLefts(m, a) + RowLefts(m, b) && Size(a + b) == Size(a) + Size(b)
  {
    if a == [] {
      assert a + b == b;
    } else {
      assert (a + b)[1..] == a[1..] + b;
      RowsConcat(m, a[1..], b);
    }
  }

  /** Extraction moves brackets and elements; only the closing bracket is lost. */
  lemma {:induction false} ScanCounts(m: Metas, l: Sym, r: Sym, rows: seq<Rule>, nest: nat)
    requires rows != []
    ensures var x := Scan(l, r, rows, nest);
      && RowLefts(m, x.taken) + Lefts(m, x.tail) + RowLefts(m, x.left) <= RowLefts(m, rows)
      && Size(x.taken) + |x.tail| + Size(x.left) <= Size(rows) && |x.left| + |x.taken| <= |rows|
  {
    CloseInside(l, r, rows[0], nest);
    match Close(l, r, rows[0], nest)
    case Found(j) =>
      assert rows[0] == rows[0][..j] + ([rows[0][j]] + rows[0][j + 1..]);
      LeftsConcat(m, rows[0][..j], [rows[0][j]] + rows[0][j + 1..]);
      LeftsConcat(m, [rows[0][j]], rows[0][j + 1..]);
      assert RowLefts(m, [rows[0][..j]]) == Lefts(m, rows[0][..j]) + RowLefts(m, []);
      assert Size([rows[0][..j]]) == j + Size([]);
    case NotFound(n) =>
      if |rows| == 1 {
      } else {
        ScanCounts(m, l, r, rows[1..], n);
        var x := Scan(l, r, rows[1..], n);
        assert ([rows[0]] + x.taken)[1..] == x.taken;
      }
  }

  lemma {:induction false} FillCounts(m: Metas, e: Option<Sym>, rows: seq<Rule>)
    requires e.Some? ==> !m.IsMeta(e.value)
    ensures RowLefts(m, FillAll(e, rows)) == RowLefts(m, rows)
  {
    if rows != [] {
      FillCounts(m, e, rows[1..]);
      assert e.Some? ==> Lefts(m, [e.value]) == 0 + Lefts(m, []);
    }
  }

  lemma {:induction false} FillConcat(e: Option<Sym>, a: seq<Rule>, b: seq<Rule>)
    ensures FillAll(e, a + b) == FillAll(e, a) + FillAll(e, b)
  {
    if a == [] {
      assert a + b == b;
    } else {
      assert (a + b)[1..] == a[1..] + b;
      FillConcat(e, a[1..], b);
    }
  }

  // ----- extractuntil -----

  method Error(g: Grammar)
    modifies g`errors
    ensures g.errors == old(g.errors) + 1
  {
    g.errors := g.errors + 1;
  }

  /** What is left of a production list after its rule p, broken off at element e, took in symbol ns. */
  function Spliced(row: seq<Rule>, p: nat, e: nat, ns: Sym, x: Extract): seq<Rule>
    requires p < |row| && e < |row[p]|
  {
    row[..p] + [row[p][..e] + [ns] + x.tail] + x.left
  }

  function Extraction(row: seq<Rule>, p: nat, e: nat, l: Sym, r: Sym): Extract
    requires p < |row| && e < |row[p]|
  {
    Scan(l, r, [row[p][e + 1..]] + row[p + 1..], 0)
  }

  /** The rest of a Scan of which j elements of the production cur have been passed. */
  function ScanFrom(l: Sym, r: Sym, cur: Rule, j: nat, nest: nat, more: seq<Rule>): Extract
    requires j <= |cur|
  {
    match Close(l, r, cur[j..], nest)
    case Found(i) =>
      if j + i < |cur| then Extract([cur[..j + i]], cur[j + i + 1..], more, true) else Extract([[]], [], [], false)
    case NotFound(n) =>
      if more == [] then Extract([cur], [], [], false)
      else
        var x := Scan(l, r, more, n);
        x.(taken := [cur] + x.taken)
  }

  function Before(done: seq<Rule>, x: Extract): Extract {
    x.(taken := done + x.taken)
  }

  lemma ScanFromStart(l: Sym, r: Sym, rows: seq<Rule>, nest: nat)
    requires rows != []
    ensures ScanFrom(l, r, rows[0], 0, nest, rows[1..]) == Scan(l, r, rows, nest)
  {
    assert rows[0][0..] == rows[0];
    assert |rows| == 1 ==> rows == [rows[0]];
  }

  /** One element further; the cases of extractuntil's scan. */
  lemma ScanFromStep(l: Sym, r: Sym, cur: Rule, j: nat, nest: nat, more: seq<Rule>)
    requires j < |cur|
    ensures cur[j] == r && nest == 0 ==>
      ScanFrom(l, r, cur, j, nest, more) == Extract([cur[..j]], cur[j + 1..], more, true)
    ensures cur[j] == r && nest > 0 ==> ScanFrom(l, r, cur, j, nest, more) == ScanFrom(l, r, cur, j + 1, nest - 1, more)
    ensures cur[j] != r ==>
      ScanFrom(l, r, cur, j, nest, more) == ScanFrom(l, r, cur, j + 1, if cur[j] == l then nest + 1 else nest, more)
  {
    assert cur[j..][1..] == cur[j + 1..] && cur[j..][0] == cur[j];
  }

  lemma ScanFromEnd(l: Sym, r: Sym, cur: Rule, nest: nat, more: seq<Rule>)
    ensures ScanFrom(l, r, cur, |cur|, nest, more) ==
      if more == [] then Extract([cur], [], [], false) else Before([cur], ScanFrom(l, r, more[0], 0, nest, more[1..]))
  {
    if more != [] { ScanFromStart(l, r, more, nest); }
  }

  lemma FillSnoc(e: Option<Sym>, done: seq<Rule>, cur: Rule)
    ensures FillAll(e, done + [cur]) == FillAll(e, done) + [Fill(e, cur)]
  {
    FillConcat(e, done, [cur]);
    assert FillAll(e, [cur]) == [Fill(e, cur)] + FillAll(e, []);
  }

  lemma BeforeSnoc(done: seq<Rule>, cur: Rule, x: Extract)
    ensures Before(done, Before([cur], x)) == Before(done + [cur], x)
  {
    assert done + ([cur] + x.taken) == (done + [cur]) + x.taken;
  }

  /** The lists as the scan of extractuntil finds them: ns holds the finished productions and the current
      one, s holds the rules before rule p, rule p broken off at the new symbol, and the rules not yet taken. */
  ghost predicate Extracting(R0: Rules, R: Rules, e: Option<Sym>, s: Sym, head: seq<Rule>, done: seq<Rule>, cur: Rule,
      more: seq<Rule>)
  {
    && s < |R0| && |R| == |R0| + 1
    && R[s] == head + more && R[|R0|] == FillAll(e, done) + [cur]
    && forall t :: 0 <= t < |R0| && t != s ==> R[t] == R0[t]
  }

  /** The state of the scan loop of extractuntil, x being what it will have extracted. */
  ghost predicate Scanning(R0: Rules, R: Rules, e: Option<Sym>, s: Sym, head: seq<Rule>, done: seq<Rule>, cur: Rule,
      more: seq<Rule>,
      l: Sym, r: Sym, j: nat, nest: nat, x: Extract)
  {
    && Extracting(R0, R, e, s, head, done, cur, more) && j <= |cur|
    && Before(done, ScanFrom(l, r, cur, j, nest, more)) == x
  }

  /** The loop's case ee == NULL: the current production ends; the next rule of s, if any, is swiped. */
  method EndOfRule(g: Grammar, s: Sym, p: nat, ns: Sym, nest: nat, ghost R0: Rules, ghost head: seq<Rule>,
      ghost done: seq<Rule>, ghost cur: Rule, ghost more: seq<Rule>, ghost l: Sym, ghost r: Sym, ghost x: Extract)
    returns (stop: bool)
    requires ns == |R0| && |head| == p + 1
    requires Scanning(R0, g.rules, g.emptypt, s, head, done, cur, more, l, r, |cur|, nest, x)
    modifies g`rules, g`errors
    ensures stop == (more == []) && (if cur == [] then g.errors > old(g.errors) else g.errors == old(g.errors))
    ensures stop ==> Extracting(R0, g.rules, g.emptypt, s, head, done, Fill(g.emptypt, cur), [])
    ensures !stop ==> Scanning(R0, g.rules, g.emptypt, s, head, done + [cur], more[0], more[1..], l, r, 0, nest, x)
  {
    ScanFromEnd(l, r, cur, nest, more);
    FillSnoc(g.emptypt, done, cur);
    var k := |g.rules[ns]| - 1;
    if g.rules[ns][k] == [] {
      Error(g);
      if g.emptypt.Some? { g.rules := g.rules[ns := g.rules[ns][k := [g.emptypt.value]]]; }
    }
    assert g.rules[ns] == FillAll(g.emptypt, done + [cur]);
    stop := p + 1 == |g.rules[s]|;
    if !stop {
      var next := g.rules[s][p + 1];
      assert next == more[0];
      BeforeSnoc(done, cur, ScanFrom(l, r, more[0], 0, nest, more[1..]));
      g.rules := g.rules[s := g.rules[s][..p + 1] + g.rules[s][p + 2..]][ns := g.rules[ns] + [next]];
      assert g.rules[s] == head + more[1..];
    }
  }

  /** The scan loop of extractuntil. */
  method FindEnd(g: Grammar, s: Sym, p: nat, ns: Sym, lsym: Sym, rsym: Sym, ghost R0: Rules, ghost head: seq<Rule>,
      ghost cur0: Rule, ghost more0: seq<Rule>, ghost x: Extract)
    returns (found: bool, j: nat, ghost done: seq<Rule>, ghost cur: Rule, ghost more: seq<Rule>)
    requires ns == |R0| && |head| == p + 1
    requires Scanning(R0, g.rules, g.emptypt, s, head, [], cur0, more0, lsym, rsym, 0, 0, x)
    modifies g`rules, g`errors
    ensures found ==> Extracting(R0, g.rules, g.emptypt, s, head, done, cur, more) && j < |cur|
    ensures found ==> x == Before(done, Extract([cur[..j]], cur[j + 1..], more, true))
    ensures !found ==> more == [] && Extracting(R0, g.rules, g.emptypt, s, head, done, Fill(g.emptypt, cur), [])
    ensures !found ==> x == Before(done, Extract([cur], [], [], false))
    ensures g.errors >= old(g.errors) && (found ==> ([] !in done <==> g.errors == old(g.errors)))
  {
    done, cur, more := [], cur0, more0;
    var nest: nat := 0;
    j := 0;
    found := false;
    while true
      invariant Scanning(R0, g.rules, g.emptypt, s, head, done, cur, more, lsym, rsym, j, nest, x)
      invariant g.errors >= old(g.errors) && ([] !in done <==> g.errors == old(g.errors))
      decreases |more|, |cur| - j
    {
      var nr := g.rules[ns][|g.rules[ns]| - 1];
      assert nr == cur;
      if j == |nr| {
        var stop := EndOfRule(g, s, p, ns, nest, R0, head, done, cur, more, lsym, rsym, x);
        if stop {
          ScanFromEnd(lsym, rsym, cur, nest, more);
          break;
        }
        done, cur, more := done + [cur], more[0], more[1..];
        j := 0;
      } else {
        ScanFromStep(lsym, rsym, cur, j, nest, more);
        if nr[j] == rsym {
          if nest == 0 {
            found := true;
            break;
          }
          nest := nest - 1;
        } else if nr[j] == lsym {
          nest := nest + 1;
        }
        j := j + 1;
      }
    }
  }

  /** Takes the group that opens at element e of rule p out of the rules of s; its productions become the
      rules of a new symbol, which replaces the group.  Never fails: without a closing bracket the group
      extends to the last rule of s. */
  method ExtractUntil(g: Grammar, s: Sym, p: nat, e: nat, rsym: Sym) returns (ns: Sym)
    requires s < |g.rules| == |g.state| && p < |g.rules[s]| && e < |g.rules[s][p]|
    modifies g`rules, g`state, g`errors
    ensures ns == old(|g.rules|) && |g.rules| == ns + 1 && g.state == old(g.state) + [Untouched]
    ensures g.errors >= old(g.errors)
    ensures var x := Extraction(old(g.rules[s]), p, e, old(g.rules[s][p][e]), rsym);
      && g.rules[s] == Spliced(old(g.rules[s]), p, e, ns, x) && g.rules[ns] == FillAll(g.emptypt, x.taken)
      && (x.found && [] !in x.taken <==> g.errors == old(g.errors))
    ensures forall t :: 0 <= t < ns && t != s ==> g.rules[t] == old(g.rules[t])
  {
    ghost var R0, row := g.rules, g.rules[s];
    var lsym := g.rules[s][p][e];
    ghost var x := Extraction(row, p, e, lsym, rsym);
    ns := |g.rules|;
    var body := g.rules[s][p];
    g.rules := g.rules[s := g.rules[s][p := body[..e] + [ns]]] + [[body[e + 1..]]];
    g.state := g.state + [Untouched];
    ghost var head, cur0, more0 := row[..p] + [body[..e] + [ns]], body[e + 1..], row[p + 1..];
    StartScan(lsym, rsym, cur0, more0);
    assert Extracting(R0, g.rules, g.emptypt, s, head, [], cur0, more0);
    ghost var done, cur, more;
    var found, j;
    found, j, done, cur, more := FindEnd(g, s, p, ns, lsym, rsym, R0, head, cur0, more0, x);
    if found {
      FinishFound(g, s, p, e, ns, j, R0, done, cur, more);
    } else {
      FillSnoc(g.emptypt, done, cur);
      Error(g);
      assert row[p][..e] + [ns] + [] == row[p][..e] + [ns];
    }
  }

  lemma StartScan(l: Sym, r: Sym, cur: Rule, more: seq<Rule>)
    ensures Before([], ScanFrom(l, r, cur, 0, 0, more)) == Scan(l, r, [cur] + more, 0)
  {
    var rows := [cur] + more;
    assert rows[1..] == more;
    ScanFromStart(l, r, rows, 0);
    assert [] + Scan(l, r, rows, 0).taken == Scan(l, r, rows, 0).taken;
  }

  /** The closing bracket was found at element j of the last production of ns. */
  method FinishFound(g: Grammar, s: Sym, p: nat, e: nat, ns: Sym, j: nat, ghost R0: Rules, ghost done: seq<Rule>,
      ghost cur: Rule, ghost more: seq<Rule>)
    requires s < |R0| && p < |R0[s]| && e < |R0[s][p]| && ns == |R0|
    requires Extracting(R0, g.rules, g.emptypt, s, R0[s][..p] + [R0[s][p][..e] + [ns]], done, cur, more) && j < |cur|
    modifies g`rules, g`errors
    ensures |g.rules| == |R0| + 1 && g.errors >= old(g.errors) && (cur[..j] != [] <==> g.errors == old(g.errors))
    ensures g.rules[s] == R0[s][..p] + [R0[s][p][..e] + [ns] + cur[j + 1..]] + more
    ensures g.rules[ns] == FillAll(g.emptypt, done + [cur[..j]])
    ensures forall t :: 0 <= t < ns && t != s ==> g.rules[t] == R0[t]
  {
    var k := |g.rules[ns]| - 1;
    var nr := g.rules[ns][k];
    assert nr == cur;
    FillSnoc(g.emptypt, done, cur[..j]);
    g.rules := g.rules[s := g.rules[s][p := g.rules[s][p] + nr[j + 1..]]][ns := g.rules[ns][k := nr[..j]]];
    if nr[..j] == [] {
      Error(g);
      if g.emptypt.Some? { g.rules := g.rules[ns := g.rules[ns][k := [g.emptypt.value]]]; }
    }
  }
}
