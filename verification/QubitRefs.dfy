/** src/v1x/cqasm-analyzer-helper.cpp: qubit and bit references, their indexing, and the checks on the operands of
    an instruction. */
module QubitRefs {
  import opened Wrappers
  import Analysis

  // ----- index lists -----

  /** An entry of an index list; None stands for an expression that is not a constant integer. */
  datatype Entry = Item(n: Option<int>) | Range(first: Option<int>, last: Option<int>)

  predicate InBounds(n: Option<int>, size: nat) {
    n.Some? && 0 <= n.value < size
  }

  predicate EntryOk(e: Entry, size: nat) {
    match e
    case Item(n) => InBounds(n, size)
    case Range(first, last) => InBounds(first, size) && InBounds(last, size) && first.value <= last.value
  }

  predicate EntriesOk(entries: seq<Entry>, size: nat) {
    forall i :: 0 <= i < |entries| ==> EntryOk(entries[i], size)
  }

  function From(a: int, b: int): seq<int>
    decreases b - a
  {
    if a > b then [] else [a] + From(a + 1, b)
  }

  function Indices(e: Entry): seq<int> {
    match e
    case Item(n) => if n.Some? then [n.value] else []
    case Range(first, last) => if first.Some? && last.Some? then From(first.value, last.value) else []
  }

  function Selection(entries: seq<Entry>): seq<int> {
    if entries == [] then [] else Indices(entries[0]) + Selection(entries[1..])
  }

  predicate InRange(s: seq<int>, size: nat) {
    forall i :: 0 <= i < |s| ==> 0 <= s[i] < size
  }

  lemma {:induction false} FromInRange(a: int, b: int, size: nat)
    requires 0 <= a && b < size
    ensures InRange(From(a, b), size) && (a <= b ==> From(a, b) != [])
    decreases b - a
  {
    if a <= b { FromInRange(a + 1, b, size); }
  }

  lemma {:induction false} SelectionInRange(entries: seq<Entry>, size: nat)
    requires EntriesOk(entries, size)
    ensures InRange(Selection(entries), size) && (entries != [] ==> Selection(entries) != [])
  {
    if entries != [] {
      assert EntriesOk(entries[1..], size) by {
        forall i | 0 <= i < |entries[1..]|
          ensures EntryOk(entries[1..][i], size)
        {
          assert EntryOk(entries[i + 1], size);
        }
      }
      SelectionInRange(entries[1..], size);
      assert EntryOk(entries[0], size);
      if entries[0].Range? { FromInRange(entries[0].first.value, entries[0].last.value, size); }
      var a, b := Indices(entries[0]), Selection(entries[1..]);
      forall i | 0 <= i < |a + b| ensures 0 <= (a + b)[i] < size { if i >= |a| { assert (a + b)[i] == b[i - |a|]; } }
    }
  }

  lemma {:induction false} FromSnoc(a: int, b: int)
    requires a <= b + 1
    ensures From(a, b + 1) == From(a, b) + [b + 1]
    decreases b - a
  {
    if a <= b {
      FromSnoc(a + 1, b);
      assert [a] + (From(a + 1, b) + [b + 1]) == ([a] + From(a + 1, b)) + [b + 1];
    } else {
      assert From(a, b) == [] && From(a, a) == [a] + From(a + 1, a);
    }
  }

  /** The indices of a range, behind those collected before. */
  method AddRange(acc0: seq<int>, first: int, last: int) returns (acc: seq<int>)
    requires first <= last
    ensures acc == acc0 + From(first, last)
  {
    acc := acc0;
    var index := first;
    assert acc0 + From(index, index - 1) == acc0;
    while index <= last
      invariant first <= index <= last + 1 && acc == acc0 + From(first, index - 1)
    {
      FromSnoc(first, index - 1);
      ConcatAssoc(acc0, From(first, index - 1), [index]);
      acc := acc + [index];
      index := index + 1;
    }
  }

  /** One entry of an index list: None with an error. */
  method AddEntry(acc: seq<int>, entry: Entry, size: nat) returns (r: Option<seq<int>>)
    ensures r == if EntryOk(entry, size) then Some(acc + Indices(entry)) else None
  {
    match entry
    case Item(n) =>
      if n.None? || n.value < 0 || n.value >= size {
        return None;
      }
      r := Some(acc + [n.value]);
    case Range(first, last) =>
      if first.None? || first.value < 0 || first.value >= size {
        return None;
      }
      if last.None? || last.value < 0 || last.value >= size {
        return None;
      }
      if first.value > last.value {
        return None;
      }
      var all := AddRange(acc, first.value, last.value);
      r := Some(all);
  }

  /** analyze_index_list: None with an error. */
  method AnalyzeIndexList(entries: seq<Entry>, size: nat) returns (r: Option<seq<int>>)
    ensures r.Some? <==> EntriesOk(entries, size)
    ensures r.Some? ==> r.value == Selection(entries) && InRange(r.value, size)
  {
    r := Some([]);
    var i := 0;
    while i < |entries|
      invariant i <= |entries| && r.Some? && r.value + Selection(entries[i..]) == Selection(entries)
      invariant forall k :: 0 <= k < i ==> EntryOk(entries[k], size)
    {
      assert entries[i..][0] == entries[i] && entries[i..][1..] == entries[i + 1..];
      ConcatAssoc(r.value, Indices(entries[i]), Selection(entries[i + 1..]));
      r := AddEntry(r.value, entries[i], size);
      if r.None? {
        return;
      }
      i := i + 1;
    }
    assert r.value + [] == r.value;
    SelectionInRange(entries, size);
  }

  // ----- what an index list selects -----

  predicate Names(e: Entry, n: int) {
    match e
    case Item(x) => x == Some(n)
    case Range(first, last) => first.Some? && last.Some? && first.value <= n <= last.value
  }

  /** The number of indices an entry stands for, and the first of them. */
  function Width(e: Entry): nat {
    match e
    case Item(_) => 1
    case Range(first, last) =>
      if first.Some? && last.Some? && first.value <= last.value then last.value - first.value + 1 else 0
  }

  function First(e: Entry): int {
    match e
    case Item(n) => if n.Some? then n.value else 0
    case Range(first, _) => if first.Some? then first.value else 0
  }

  /** The place in the selection where entry i begins. */
  function Start(entries: seq<Entry>, i: nat): nat
    requires i <= |entries|
  {
    if i == 0 then 0 else Start(entries, i - 1) + Width(entries[i - 1])
  }

  lemma EntryIndices(e: Entry, size: nat)
    requires EntryOk(e, size)
    ensures |Indices(e)| == Width(e) && forall k :: 0 <= k < Width(e) ==> Indices(e)[k] == First(e) + k
    ensures forall n :: n in Indices(e) <==> Names(e, n)
  {
    if e.Range? {
      var a, b := e.first.value, e.last.value;
      FromLength(a, b);
      forall k | 0 <= k < Width(e) ensures Indices(e)[k] == a + k { FromAt(a, b, k); }
      forall n | Names(e, n) ensures n in Indices(e) { assert Indices(e)[n - a] == n; }
    }
  }

  lemma {:induction false} SelectionConcat(a: seq<Entry>, b: seq<Entry>)
    ensures Selection(a + b) == Selection(a) + Selection(b)
  {
    if a == [] {
      assert a + b == b;
    } else {
      assert (a + b)[1..] == a[1..] + b;
      SelectionConcat(a[1..], b);
      ConcatAssoc(Indices(a[0]), Selection(a[1..]), Selection(b));
    }
  }

  lemma SelectionSnoc(entries: seq<Entry>, i: nat)
    requires i < |entries|
    ensures Selection(entries[..i + 1]) == Selection(entries[..i]) + Indices(entries[i])
  {
    assert entries[..i + 1] == entries[..i] + [entries[i]];
    SelectionConcat(entries[..i], [entries[i]]);
    assert [entries[i]][1..] == [] && Indices(entries[i]) + [] == Indices(entries[i]);
  }

  lemma {:induction false} SelectionLength(entries: seq<Entry>, i: nat, size: nat)
    requires i <= |entries| && EntriesOk(entries, size)
    ensures |Selection(entries[..i])| == Start(entries, i)
  {
    if i > 0 {
      SelectionLength(entries, i - 1, size);
      SelectionSnoc(entries, i - 1);
      EntryIndices(entries[i - 1], size);
    }
  }

  /** The entries are spelled out one after the other, each range from its first index to its last. */
  lemma SelectionAt(entries: seq<Entry>, i: nat, k: nat, size: nat)
    requires i < |entries| && k < Width(entries[i]) && EntriesOk(entries, size)
    ensures |Selection(entries)| == Start(entries, |entries|) && Start(entries, i) + k < |Selection(entries)|
    ensures Selection(entries)[Start(entries, i) + k] == First(entries[i]) + k
  {
    assert entries == entries[..|entries|] && entries == entries[..i + 1] + entries[i + 1..];
    SelectionLength(entries, |entries|, size);
    SelectionLength(entries, i, size);
    SelectionSnoc(entries, i);
    SelectionConcat(entries[..i + 1], entries[i + 1..]);
    EntryIndices(entries[i], size);
  }

  /** An index is selected exactly if some entry names it. */
  lemma {:induction false} SelectionMembers(entries: seq<Entry>, n: int, size: nat)
    requires EntriesOk(entries, size)
    ensures n in Selection(entries) <==> exists i :: 0 <= i < |entries| && Names(entries[i], n)
  {
    if entries != [] {
      assert entries == [entries[0]] + entries[1..];
      assert EntriesOk(entries[1..], size) by {
        forall i | 0 <= i < |entries[1..]| ensures EntryOk(entries[1..][i], size) {
          assert EntryOk(entries[i + 1], size);
        }
      }
      SelectionMembers(entries[1..], n, size);
      EntryIndices(entries[0], size);
      if i :| 0 <= i < |entries[1..]| && Names(entries[1..][i], n) { assert Names(entries[i + 1], n); }
      if i :| 0 <= i < |entries| && Names(entries[i], n) {
        if i > 0 { assert Names(entries[1..][i - 1], n); }
      }
    }
  }

  /** What an index list selects from refs: its entries one after the other. */
  ghost predicate Picks(entries: seq<Entry>, refs: seq<int>, out: seq<int>) {
    && |out| == Start(entries, |entries|)
    && forall i, k :: 0 <= i < |entries| && 0 <= k < Width(entries[i]) ==> PicksAt(entries, refs, out, i, k)
  }

  predicate PicksAt(entries: seq<Entry>, refs: seq<int>, out: seq<int>, i: nat, k: nat)
    requires i < |entries|
  {
    && Start(entries, i) + k < |out| && 0 <= First(entries[i]) + k < |refs|
    && out[Start(entries, i) + k] == refs[First(entries[i]) + k]
  }

  // ----- indexing references -----

  /** Indexing selects: the k-th result is the element that the k-th index names. */
  function Compose(refs: seq<int>, indices: seq<int>): (r: seq<int>)
    requires InRange(indices, |refs|)
    ensures |r| == |indices|
  {
    seq(|indices|, k requires 0 <= k < |indices| => refs[indices[k]])
  }

  lemma ComposeInRange(refs: seq<int>, indices: seq<int>, n: nat)
    requires InRange(indices, |refs|) && InRange(refs, n)
    ensures InRange(Compose(refs, indices), n)
  {
  }

  /** Indexing twice is indexing once, by the first selection indexed by the second. */
  lemma ComposeTwice(refs: seq<int>, a: seq<int>, b: seq<int>)
    requires InRange(a, |refs|) && InRange(b, |a|)
    ensures InRange(Compose(a, b), |refs|) && Compose(Compose(refs, a), b) == Compose(refs, Compose(a, b))
  {
  }

  /** The loop of analyze_index, which overwrites each index by what it refers to. */
  method AnalyzeIndex(refs: seq<int>, entries: seq<Entry>) returns (r: Option<seq<int>>)
    ensures r.Some? <==> EntriesOk(entries, |refs|)
    ensures r.Some? ==> InRange(Selection(entries), |refs|) && r.value == Compose(refs, Selection(entries))
    ensures r.Some? ==> Picks(entries, refs, r.value)
  {
    var indices := AnalyzeIndexList(entries, |refs|);
    if indices.None? {
      return None;
    }
    var out := indices.value;
    ghost var sel := out;
    var k := 0;
    while k < |out|
      invariant k <= |out| == |sel|
      invariant forall j :: 0 <= j < k ==> out[j] == refs[sel[j]]
      invariant forall j :: k <= j < |out| ==> out[j] == sel[j]
    {
      out := out[k := refs[out[k]]];
      k := k + 1;
    }
    assert out == Compose(refs, sel);
    ComposePicks(entries, refs);
    return Some(out);
  }

  lemma ComposePicks(entries: seq<Entry>, refs: seq<int>)
    requires EntriesOk(entries, |refs|) && InRange(Selection(entries), |refs|)
    ensures Picks(entries, refs, Compose(refs, Selection(entries)))
  {
    var out := Compose(refs, Selection(entries));
    assert entries[..|entries|] == entries;
    SelectionLength(entries, |entries|, |refs|);
    forall i, k | 0 <= i < |entries| && 0 <= k < Width(entries[i]) ensures PicksAt(entries, refs, out, i, k)
    {
      SelectionAt(entries, i, k, |refs|);
      assert EntryOk(entries[i], |refs|);
    }
  }

  // ----- references through mappings -----

  /** A value, as far as references go: qubits, measurement bits, or anything else. */
  datatype Operand = Qubits(index: seq<int>) | Bits(index: seq<int>) | Other

  /** A name, an indexed expression, or another expression, whose value is no reference. */
  datatype RefExpr = Named(name: string) | Indexed(e: RefExpr, entries: seq<Entry>) | Plain

  type RefEnv = map<string, Operand>

  /** The index lists of parsed programs are not empty. */
  predicate Parsed(e: RefExpr) {
    e.Indexed? ==> e.entries != [] && Parsed(e.e)
  }

  /** The selection that the nested indices of e make, out of size elements. */
  function Path(e: RefExpr, size: nat): (p: Option<seq<int>>)
    ensures p.Some? ==> InRange(p.value, size)
  {
    if !e.Indexed? then FromAll(size); Some(From(0, size - 1))
    else
      match Path(e.e, size)
      case None => None
      case Some(p) =>
        if EntriesOk(e.entries, |p|) then
          SelectionInRange(e.entries, |p|);
          ComposeInRange(p, Selection(e.entries), size);
          Some(Compose(p, Selection(e.entries)))
        else None
  }

  lemma FromAll(size: nat)
    ensures InRange(From(0, size - 1), size)
  {
    FromInRange(0, size - 1, size);
  }

  /** What the innermost expression of e stands for; names are found regardless of case. */
  function BaseValue(e: RefExpr, env: RefEnv): Option<Operand> {
    match e
    case Named(n) => if Analysis.Lower(n) in env then Some(env[Analysis.Lower(n)]) else None
    case Indexed(e', _) => BaseValue(e', env)
    case Plain => Some(Other)
  }

  function Reindexed(v: Operand, index: seq<int>): Operand {
    match v
    case Qubits(_) => Qubits(index)
    case Bits(_) => Bits(index)
    case Other => Other
  }

  /** What e refers to: the selection its indices make from the register it is based on.  Nothing else can be
      indexed. */
  function RefValue(e: RefExpr, env: RefEnv): Option<Operand> {
    match BaseValue(e, env)
    case None => None
    case Some(v) =>
      if v.Other? then if e.Indexed? then None else Some(v)
      else
        match Path(e, |v.index|)
        case None => None
        case Some(p) => Some(Reindexed(v, Compose(v.index, p)))
  }

  /** The nested visits of analyze_expression and analyze_index. */
  method AnalyzeRef(e: RefExpr, env: RefEnv) returns (r: Option<Operand>)
    ensures r == RefValue(e, env)
  {
    match e
    case Plain => r := Some(Other);
    case Named(n) =>
      if Analysis.Lower(n) in env {
        r := Some(env[Analysis.Lower(n)]);
        if !r.value.Other? { WholePath(r.value.index); }
      } else {
        r := None;
      }
    case Indexed(e', entries) =>
      var inner := AnalyzeRef(e', env);
      if inner.None? || inner.value.Other? {
        return None;
      }
      var indices := AnalyzeIndex(inner.value.index, entries);
      if indices.None? {
        return None;
      }
      ghost var base := BaseValue(e, env).value.index;
      ComposeTwice(base, Path(e', |base|).value, Selection(entries));
      r := Some(if inner.value.Qubits? then Qubits(indices.value) else Bits(indices.value));
  }

  lemma {:induction false} FromAt(a: int, b: int, k: nat)
    requires a <= b + 1 && k < b - a + 1
    ensures |From(a, b)| == b - a + 1 && From(a, b)[k] == a + k
    decreases k
  {
    FromLength(a, b);
    if k > 0 { FromAt(a + 1, b, k - 1); }
  }

  lemma {:induction false} FromLength(a: int, b: int)
    requires a <= b + 1
    ensures |From(a, b)| == b - a + 1
    decreases b - a
  {
    if a <= b { FromLength(a + 1, b); }
  }

  lemma WholePath(refs: seq<int>)
    ensures InRange(From(0, |refs| - 1), |refs|) && Compose(refs, From(0, |refs| - 1)) == refs
  {
    FromAll(|refs|);
    FromLength(0, |refs| - 1);
    var all := From(0, |refs| - 1);
    forall k | 0 <= k < |refs| ensures all[k] == k { FromAt(0, |refs| - 1, k); }
  }

  /** A mapped register with one index list: qubits stay qubits and bits stay bits, and the list picks from what the
      name stands for. */
  lemma IndexedName(name: string, entries: seq<Entry>, env: RefEnv)
    requires Analysis.Lower(name) in env
    ensures var v, r := env[Analysis.Lower(name)], RefValue(Indexed(Named(name), entries), env);
      && (r.Some? <==> !v.Other? && EntriesOk(entries, |v.index|))
      && (r.Some? ==> (r.value.Qubits? <==> v.Qubits?) && (r.value.Bits? <==> v.Bits?))
      && (r.Some? ==> Picks(entries, v.index, r.value.index))
  {
    var v := env[Analysis.Lower(name)];
    assert BaseValue(Named(name), env) == Some(v);
    if !v.Other? {
      PathOne(name, entries, v.index);
      if EntriesOk(entries, |v.index|) { ComposePicks(entries, v.index); }
    }
  }

  lemma PathOne(name: string, entries: seq<Entry>, refs: seq<int>)
    ensures var p := Path(Indexed(Named(name), entries), |refs|);
      && (p.Some? <==> EntriesOk(entries, |refs|))
      && (p.Some? ==>
        InRange(Selection(entries), |refs|) && Compose(refs, p.value) == Compose(refs, Selection(entries)))
  {
    var all := From(0, |refs| - 1);
    assert Path(Named(name), |refs|) == Some(all);
    FromLength(0, |refs| - 1);
    if EntriesOk(entries, |refs|) {
      SelectionInRange(entries, |refs|);
      WholePath(refs);
      ComposeTwice(refs, all, Selection(entries));
    }
  }

  /** A register that is not empty and names existing qubits, or no register. */
  predicate SaneValue(v: Operand, n: nat) {
    !v.Other? ==> v.index != [] && InRange(v.index, n)
  }

  predicate Sane(env: RefEnv, n: nat) {
    forall name :: name in env ==> SaneValue(env[name], n)
  }

  lemma {:induction false} PathNotEmpty(e: RefExpr, size: nat)
    requires Parsed(e) && size > 0 && Path(e, size).Some?
    ensures Path(e, size).value != []
  {
    if e.Indexed? {
      SelectionInRange(e.entries, |Path(e.e, size).value|);
    } else {
      FromLength(0, size - 1);
    }
  }

  /** The mappings after some map statements; one whose expression is in error maps nothing. */
  function MapAll(defs: seq<(string, RefExpr)>, env: RefEnv): RefEnv {
    if defs == [] then env
    else
      match RefValue(defs[0].1, env)
      case Some(r) => MapAll(defs[1..], env[Analysis.Lower(defs[0].0) := r])
      case None => MapAll(defs[1..], env)
  }

  /** The number of qubits, none if the qubits statement is in error. */
  function NumQubits(n: int): nat {
    if n < 1 then 0 else n
  }

  /** The mappings before the first statement: the constants known from the start, and unless the number of qubits
      is in error q and b, which stand for all the qubits and all the measurement bits. */
  function Initially(constants: set<string>, n: int): RefEnv {
    var env := map c | c in constants :: Other;
    if n < 1 then env else env["q" := Qubits(From(0, n - 1))]["b" := Bits(From(0, n - 1))]
  }

  /** analyze_qubits; false with an error */
  method AnalyzeQubits(constants: set<string>, n: int) returns (env: RefEnv, ok: bool)
    ensures env == Initially(constants, n) && (ok <==> n >= 1)
  {
    env := map c | c in constants :: Other;
    if n < 1 {
      return env, false;
    }
    var all := [];
    var q := 0;
    while q < n
      invariant q <= n && all == From(0, q - 1)
    {
      FromSnoc(0, q - 1);
      all := all + [q];
      q := q + 1;
    }
    env := env["q" := Qubits(all)]["b" := Bits(all)];
    ok := true;
  }

  /** analyze_qubits, and the map statements in order. */
  method AnalyzeMappings(constants: set<string>, defs: seq<(string, RefExpr)>, n: int) returns (env: RefEnv)
    ensures env == MapAll(defs, Initially(constants, n))
  {
    var ok;
    env, ok := AnalyzeQubits(constants, n);
    var i := 0;
    while i < |defs|
      invariant i <= |defs| && MapAll(defs[i..], env) == MapAll(defs, Initially(constants, n))
    {
      assert defs[i..][0] == defs[i] && defs[i..][1..] == defs[i + 1..];
      var r := AnalyzeRef(defs[i].1, env);
      if r.Some? {
        env := env[Analysis.Lower(defs[i].0) := r.value];
      }
      i := i + 1;
    }
  }

  /** q and b are all the qubits and bits in order, however many there are. */
  lemma InitiallyAll(constants: set<string>, n: int, k: int)
    requires 0 <= k < n
    ensures var env := Initially(constants, n);
      && "q" in env && env["q"].Qubits? && "b" in env && env["b"].Bits?
      && |env["q"].index| == |env["b"].index| == n && env["q"].index[k] == env["b"].index[k] == k
  {
    FromAt(0, n - 1, k);
  }

  /** Map statement j, and no later one, decides what the name means. */
  ghost predicate Decides(defs: seq<(string, RefExpr)>, env: RefEnv, x: string, j: nat) {
    && j < |defs| && Maps(defs, env, x, j) && forall i :: j < i < |defs| ==> !Maps(defs, env, x, i)
  }

  /** Map statement j maps the name: its expression resolves where the statement stands. */
  ghost predicate Maps(defs: seq<(string, RefExpr)>, env: RefEnv, x: string, j: nat)
    requires j < |defs|
  {
    Analysis.Lower(defs[j].0) == x && RefValue(defs[j].1, MapAll(defs[..j], env)).Some?
  }

  lemma {:induction false} MapAllSnoc(defs: seq<(string, RefExpr)>, d: (string, RefExpr), env: RefEnv)
    ensures var now := MapAll(defs, env);
      MapAll(defs + [d], env) ==
        match RefValue(d.1, now) case Some(r) => now[Analysis.Lower(d.0) := r] case None => now
  {
    if defs == [] {
      assert [] + [d] == [d] && [d][1..] == [];
    } else {
      assert (defs + [d])[0] == defs[0] && (defs + [d])[1..] == defs[1..] + [d];
      match RefValue(defs[0].1, env)
      case Some(r) => MapAllSnoc(defs[1..], d, env[Analysis.Lower(defs[0].0) := r]);
      case None => MapAllSnoc(defs[1..], d, env);
    }
  }

  predicate SameMeaning(env: RefEnv, env': RefEnv, x: string) {
    (x in env <==> x in env') && (x in env ==> env[x] == env'[x])
  }

  /** After some map statements a name means what the last of them that maps it says, ... */
  lemma {:induction false} LastMappingHolds(defs: seq<(string, RefExpr)>, env: RefEnv, x: string, j: nat)
    requires Decides(defs, env, x, j)
    ensures MeansLike(defs, env, x, j)
  {
    var n := |defs| - 1;
    LastStep(defs, env, x);
    if j < n {
      assert !Maps(defs, env, x, n);
      EarlierMaps(defs, env, x, j);
      forall i | j < i < n ensures !Maps(defs[..n], env, x, i) { EarlierMaps(defs, env, x, i); }
      LastMappingHolds(defs[..n], env, x, j);
      assert defs[..n][..j] == defs[..j];
    }
  }

  /** ... and without one what it meant before. */
  lemma {:induction false} NeverMapped(defs: seq<(string, RefExpr)>, env: RefEnv, x: string)
    requires forall j: nat :: j < |defs| ==> !Maps(defs, env, x, j)
    ensures SameMeaning(MapAll(defs, env), env, x)
  {
    if defs != [] {
      LastStep(defs, env, x);
      var n := |defs| - 1;
      assert !Maps(defs, env, x, n);
      forall j: nat | j < n ensures !Maps(defs[..n], env, x, j) { EarlierMaps(defs, env, x, j); }
      NeverMapped(defs[..n], env, x);
    }
  }

  lemma EarlierMaps(defs: seq<(string, RefExpr)>, env: RefEnv, x: string, j: nat)
    requires j < |defs| - 1
    ensures Maps(defs[..|defs| - 1], env, x, j) <==> Maps(defs, env, x, j)
  {
    assert defs[..|defs| - 1][..j] == defs[..j];
  }

  /** The last map statement changes the meaning of the name exactly if it maps it. */
  lemma LastStep(defs: seq<(string, RefExpr)>, env: RefEnv, x: string)
    requires defs != []
    ensures Maps(defs, env, x, |defs| - 1) ==> MeansLike(defs, env, x, |defs| - 1)
    ensures !Maps(defs, env, x, |defs| - 1) ==> SameMeaning(MapAll(defs, env), MapAll(defs[..|defs| - 1], env), x)
  {
    var n := |defs| - 1;
    assert defs == defs[..n] + [defs[n]];
    MapAllSnoc(defs[..n], defs[n], env);
  }

  /** In the end the name means what the expression of map statement j means there. */
  ghost predicate MeansLike(defs: seq<(string, RefExpr)>, env: RefEnv, x: string, j: nat)
    requires j < |defs|
  {
    x in MapAll(defs, env) && RefValue(defs[j].1, MapAll(defs[..j], env)) == Some(MapAll(defs, env)[x])
  }

  /** Against sane mappings every reference that resolves is sane. */
  lemma RefValueSane(e: RefExpr, env: RefEnv, n: nat)
    requires Parsed(e) && Sane(env, n) && RefValue(e, env).Some?
    ensures SaneValue(RefValue(e, env).value, n)
  {
    BaseSane(e, env, n);
    var v := BaseValue(e, env).value;
    if !v.Other? {
      PathNotEmpty(e, |v.index|);
      ComposeInRange(v.index, Path(e, |v.index|).value, n);
    }
  }

  lemma {:induction false} BaseSane(e: RefExpr, env: RefEnv, n: nat)
    requires Sane(env, n) && BaseValue(e, env).Some?
    ensures SaneValue(BaseValue(e, env).value, n)
  {
    if e.Indexed? { BaseSane(e.e, env, n); }
  }

  lemma {:induction false} MapAllSane(defs: seq<(string, RefExpr)>, env: RefEnv, n: nat)
    requires Sane(env, n) && forall i :: 0 <= i < |defs| ==> Parsed(defs[i].1)
    ensures Sane(MapAll(defs, env), n)
  {
    if defs != [] {
      assert Parsed(defs[0].1);
      var r := RefValue(defs[0].1, env);
      if r.Some? {
        RefValueSane(defs[0].1, env, n);
        MapAllSane(defs[1..], env[Analysis.Lower(defs[0].0) := r.value], n);
      } else {
        MapAllSane(defs[1..], env, n);
      }
    }
  }

  /** Whatever was mapped before, through any chain of mappings and nested indices, a qubit or bit reference that
      resolves is not empty and stays within the qubits of the program. */
  lemma ReferencesInRange(constants: set<string>, defs: seq<(string, RefExpr)>, e: RefExpr, n: int)
    requires Parsed(e) && forall i :: 0 <= i < |defs| ==> Parsed(defs[i].1)
    ensures var r := RefValue(e, MapAll(defs, Initially(constants, n))); r.Some? ==> SaneValue(r.value, NumQubits(n))
  {
    if n >= 1 {
      FromAll(n);
      FromLength(0, n - 1);
    }
    MapAllSane(defs, Initially(constants, n), NumQubits(n));
    var env := MapAll(defs, Initially(constants, n));
    if RefValue(e, env).Some? { RefValueSane(e, env, NumQubits(n)); }
  }

  // ----- the operands of an instruction -----

  /** All the qubits that the operands name, in order. */
  function QubitsOf(operands: seq<Operand>): seq<int> {
    if operands == [] then [] else (if operands[0].Qubits? then operands[0].index else []) + QubitsOf(operands[1..])
  }

  predicate Distinct(s: seq<int>) {
    forall i, j :: 0 <= i < j < |s| ==> s[i] != s[j]
  }

  predicate SameSizes(operands: seq<Operand>) {
    forall i, j :: 0 <= i < |operands| && 0 <= j < |operands| && !operands[i].Other? && !operands[j].Other? ==>
      |operands[i].index| == |operands[j].index|
  }

  /** No operand names a qubit twice, and no two operands share one. */
  predicate NoneShared(operands: seq<Operand>) {
    && (forall i :: 0 <= i < |operands| && operands[i].Qubits? ==> Distinct(operands[i].index))
    && forall i, j :: 0 <= i < j < |operands| ==> Apart(operands[i], operands[j])
  }

  predicate Apart(a: Operand, b: Operand) {
    a.Qubits? && b.Qubits? ==> Disjoint(a.index, b.index)
  }

  /** No qubit is used twice exactly in this case. */
  lemma {:induction false} DistinctExactly(operands: seq<Operand>)
    ensures Distinct(QubitsOf(operands)) <==> NoneShared(operands)
  {
    if operands != [] {
      var first, rest := operands[0], operands[1..];
      DistinctExactly(rest);
      NoneSharedCons(operands);
      if first.Qubits? {
        DistinctConcat(first.index, QubitsOf(rest));
        DisjointFromAll(first.index, rest);
      } else {
        assert QubitsOf(operands) == QubitsOf(rest);
      }
    }
  }

  lemma NoneSharedCons(operands: seq<Operand>)
    requires operands != []
    ensures var first, rest := operands[0], operands[1..];
      NoneShared(operands) <==>
        && NoneShared(rest) && (first.Qubits? ==> Distinct(first.index))
        && forall j :: 0 <= j < |rest| ==> Apart(first, rest[j])
  {
    var first, rest := operands[0], operands[1..];
    assert operands == [first] + rest;
    forall j | 0 <= j < |rest| ensures operands[j + 1] == rest[j] {}
    if NoneShared(operands) {
      forall j | 0 <= j < |rest| ensures Apart(first, rest[j]) { assert Apart(operands[0], operands[j + 1]); }
      forall i, j | 0 <= i < j < |rest| ensures Apart(rest[i], rest[j]) {
        assert Apart(operands[i + 1], operands[j + 1]);
      }
    }
  }

  predicate Disjoint(s: seq<int>, t: seq<int>) {
    forall i, j :: 0 <= i < |s| && 0 <= j < |t| ==> s[i] != t[j]
  }

  lemma DistinctConcat(s: seq<int>, t: seq<int>)
    ensures Distinct(s + t) <==> Distinct(s) && Distinct(t) && Disjoint(s, t)
  {
    var all := s + t;
    assert forall i :: 0 <= i < |s| ==> all[i] == s[i];
    assert forall j :: 0 <= j < |t| ==> all[|s| + j] == t[j];
    forall i, j | Distinct(all) && 0 <= i < j < |t| ensures t[i] != t[j] { assert all[|s| + i] != all[|s| + j]; }
  }

  lemma {:induction false} DisjointFromAll(s: seq<int>, operands: seq<Operand>)
    ensures Disjoint(s, QubitsOf(operands)) <==> forall j :: 0 <= j < |operands| ==> Apart(Qubits(s), operands[j])
  {
    if operands != [] {
      var first, rest := operands[0], operands[1..];
      DisjointFromAll(s, rest);
      assert forall j :: 0 < j < |operands| ==> operands[j] == rest[j - 1];
      DisjointConcat(s, if first.Qubits? then first.index else [], QubitsOf(rest));
    }
  }

  lemma DisjointConcat(s: seq<int>, a: seq<int>, b: seq<int>)
    ensures Disjoint(s, a + b) <==> Disjoint(s, a) && Disjoint(s, b)
  {
    var c := a + b;
    assert forall i :: 0 <= i < |a| ==> c[i] == a[i];
    assert forall j :: 0 <= j < |b| ==> c[|a| + j] == b[j];
  }

  lemma DistinctSnoc(s: seq<int>, x: int)
    ensures Distinct(s + [x]) <==> Distinct(s) && x !in s
  {
    var t := s + [x];
    assert t[|s|] == x && forall k :: 0 <= k < |s| ==> t[k] == s[k];
  }

  /** Once a qubit is used twice no further operand repairs that. */
  lemma DistinctPrefix(s: seq<int>, t: seq<int>)
    requires Distinct(s + t)
    ensures Distinct(s)
  {
    forall i, j | 0 <= i < j < |s| ensures s[i] != s[j] { assert (s + t)[i] == s[i] && (s + t)[j] == s[j]; }
  }

  /** The qubits of one operand, seen being those of the operands before it. */
  method UseQubits(index: seq<int>, used: set<int>, ghost seen: seq<int>) returns (ok: bool, used': set<int>)
    requires Distinct(seen) && forall x :: x in used <==> x in seen
    ensures ok <==> Distinct(seen + index)
    ensures ok ==> forall x :: x in used' <==> x in seen + index
  {
    used' := used;
    var k := 0;
    assert seen + index[..0] == seen;
    while k < |index|
      invariant k <= |index| && Distinct(seen + index[..k]) && forall x :: x in used' <==> x in seen + index[..k]
    {
      assert index[..k + 1] == index[..k] + [index[k]];
      ConcatAssoc(seen, index[..k], [index[k]]);
      DistinctSnoc(seen + index[..k], index[k]);
      if index[k] in used' {
        assert seen + index == (seen + index[..k + 1]) + index[k + 1..];
        if Distinct(seen + index) { DistinctPrefix(seen + index[..k + 1], index[k + 1..]); }
        return false, used';
      }
      used' := used' + {index[k]};
      k := k + 1;
    }
    assert index[..k] == index;
    ok := true;
  }

  lemma NextOperand(seen: seq<int>, operands: seq<Operand>)
    requires operands != []
    ensures operands[0].Qubits? ==> seen + QubitsOf(operands) == (seen + operands[0].index) + QubitsOf(operands[1..])
    ensures !operands[0].Qubits? ==> QubitsOf(operands) == QubitsOf(operands[1..])
  {
    if operands[0].Qubits? { ConcatAssoc(seen, operands[0].index, QubitsOf(operands[1..])); }
  }

  /** The check that no qubit is used twice, across all operands. */
  method CheckReusedQubits(operands: seq<Operand>) returns (ok: bool)
    ensures ok <==> Distinct(QubitsOf(operands))
  {
    var used: set<int> := {};
    ghost var seen := [];
    var i := 0;
    assert operands[0..] == operands;
    while i < |operands|
      invariant i <= |operands| && seen + QubitsOf(operands[i..]) == QubitsOf(operands)
      invariant Distinct(seen) && forall x :: x in used <==> x in seen
    {
      NextOperand(seen, operands[i..]);
      assert operands[i..][1..] == operands[i + 1..];
      if operands[i].Qubits? {
        ok, used := UseQubits(operands[i].index, used, seen);
        seen := seen + operands[i].index;
        if !ok {
          if Distinct(seen + QubitsOf(operands[i + 1..])) { DistinctPrefix(seen, QubitsOf(operands[i + 1..])); }
          return;
        }
      }
      i := i + 1;
    }
    assert seen + [] == seen;
    return true;
  }

  /** The check that all references have the same number of indices.  References are never empty. */
  method CheckIndexSizes(operands: seq<Operand>) returns (ok: bool)
    requires forall i :: 0 <= i < |operands| && !operands[i].Other? ==> operands[i].index != []
    ensures ok <==> SameSizes(operands)
  {
    var numRefs := 0;
    ghost var first := 0;
    var i := 0;
    while i < |operands|
      invariant i <= |operands|
      invariant numRefs == 0 <==> forall k :: 0 <= k < i ==> operands[k].Other?
      invariant numRefs > 0 ==> 0 <= first < i && !operands[first].Other? && |operands[first].index| == numRefs
      invariant forall k :: 0 <= k < i && !operands[k].Other? ==> |operands[k].index| == numRefs
    {
      if !operands[i].Other? {
        if numRefs == 0 {
          numRefs := |operands[i].index|;
          first := i;
        } else if numRefs != |operands[i].index| {
          return false;
        }
      }
      i := i + 1;
    }
    return true;
  }

  /** The operand checks of analyze_instruction. */
  method CheckOperands(operands: seq<Operand>, allowReusedQubits: bool, allowDifferentIndexSizes: bool)
    returns (ok: bool)
    requires forall i :: 0 <= i < |operands| && !operands[i].Other? ==> operands[i].index != []
    ensures ok <==>
      && (allowReusedQubits || Distinct(QubitsOf(operands))) && (allowDifferentIndexSizes || SameSizes(operands))
  {
    ok := true;
    if !allowReusedQubits {
      ok := CheckReusedQubits(operands);
    }
    if ok && !allowDifferentIndexSizes {
      ok := CheckIndexSizes(operands);
    }
  }

  // ----- from the expressions to the checked operands -----

  /** The operands that the expressions resolve to, if all do. */
  function ResolveAll(es: seq<RefExpr>, env: RefEnv): Option<seq<Operand>> {
    if es == [] then Some([])
    else
      match RefValue(es[0], env)
      case None => None
      case Some(v) =>
        match ResolveAll(es[1..], env)
        case None => None
        case Some(rest) => Some([v] + rest)
  }

  predicate AllParsed(es: seq<RefExpr>) {
    forall i :: 0 <= i < |es| ==> Parsed(es[i])
  }

  lemma {:induction false} ResolveAllAt(es: seq<RefExpr>, env: RefEnv)
    ensures ResolveAll(es, env).Some? <==> forall i :: 0 <= i < |es| ==> RefValue(es[i], env).Some?
    ensures var r := ResolveAll(es, env); r.Some? ==>
      |r.value| == |es| && forall i :: 0 <= i < |es| ==> RefValue(es[i], env) == Some(r.value[i])
  {
    if es != [] {
      ResolveAllAt(es[1..], env);
      forall i | 0 < i < |es| ensures es[i] == es[1..][i - 1] {}
    }
  }

  /** Whatever was mapped before, the operands an instruction ends up with are references within the program, none of
      them empty; so are all the qubits they name. */
  lemma OperandsInRange(constants: set<string>, defs: seq<(string, RefExpr)>, n: int, es: seq<RefExpr>)
    requires AllParsed(es) && forall i :: 0 <= i < |defs| ==> Parsed(defs[i].1)
    ensures var r := ResolveAll(es, MapAll(defs, Initially(constants, n))); r.Some? ==>
      && (forall i :: 0 <= i < |r.value| ==> SaneValue(r.value[i], NumQubits(n)))
      && InRange(QubitsOf(r.value), NumQubits(n))
  {
    var env := MapAll(defs, Initially(constants, n));
    var r := ResolveAll(es, env);
    ResolveAllAt(es, env);
    if r.Some? {
      forall i | 0 <= i < |r.value| ensures SaneValue(r.value[i], NumQubits(n)) {
        assert RefValue(es[i], env) == Some(r.value[i]);
        ReferencesInRange(constants, defs, es[i], n);
      }
      QubitsInRange(r.value, NumQubits(n));
    }
  }

  lemma {:induction false} QubitsInRange(operands: seq<Operand>, n: nat)
    requires forall i :: 0 <= i < |operands| ==> SaneValue(operands[i], n)
    ensures InRange(QubitsOf(operands), n)
  {
    if operands != [] {
      assert SaneValue(operands[0], n);
      QubitsInRange(operands[1..], n);
      var a, b := if operands[0].Qubits? then operands[0].index else [], QubitsOf(operands[1..]);
      forall i | 0 <= i < |a + b| ensures 0 <= (a + b)[i] < n { if i >= |a| { assert (a + b)[i] == b[i - |a|]; } }
    }
  }

  /** There are no more pairwise distinct qubits than qubits. */
  lemma {:induction false} DistinctFew(s: seq<int>, n: nat)
    requires Distinct(s) && InRange(s, n)
    ensures |s| <= n
    decreases n
  {
    if s != [] { assert 0 <= s[0] < n; }
    if k :| 0 <= k < |s| && s[k] == n - 1 {
      DistinctFew(s[..k] + s[k + 1..], n - 1);
    } else if n > 0 {
      DistinctFew(s, n - 1);
    }
  }

  /** The operands of an instruction that stands behind the qubits statement and some map statements: resolved in order,
      then checked.  None with an error. */
  method AnalyzeOperands(constants: set<string>, defs: seq<(string, RefExpr)>, n: int, es: seq<RefExpr>,
      allowReusedQubits: bool, allowDifferentIndexSizes: bool) returns (r: Option<seq<Operand>>)
    requires AllParsed(es) && forall i :: 0 <= i < |defs| ==> Parsed(defs[i].1)
    ensures var all := ResolveAll(es, MapAll(defs, Initially(constants, n)));
      r == if all.Some? && (allowReusedQubits || Distinct(QubitsOf(all.value)))
          && (allowDifferentIndexSizes || SameSizes(all.value)) then all else None
    ensures r.Some? ==> InRange(QubitsOf(r.value), NumQubits(n))
    ensures r.Some? && !allowReusedQubits ==> Distinct(QubitsOf(r.value)) && |QubitsOf(r.value)| <= NumQubits(n)
  {
    var env := AnalyzeMappings(constants, defs, n);
    var operands := [];
    var i := 0;
    BehindNothing(ResolveAll(es, env));
    assert es[0..] == es;
    while i < |es|
      invariant i <= |es|
      invariant ResolveAll(es, env) == Behind(operands, ResolveAll(es[i..], env))
    {
      assert es[i..][0] == es[i] && es[i..][1..] == es[i + 1..];
      var v := AnalyzeRef(es[i], env);
      if v.None? {
        return None;
      }
      BehindNext(operands, v.value, ResolveAll(es[i + 1..], env));
      operands := operands + [v.value];
      i := i + 1;
    }
    assert operands + [] == operands;
    OperandsInRange(constants, defs, n, es);
    var ok := CheckOperands(operands, allowReusedQubits, allowDifferentIndexSizes);
    if !ok {
      return None;
    }
    if !allowReusedQubits { DistinctFew(QubitsOf(operands), NumQubits(n)); }
    r := Some(operands);
  }

  ghost function Behind(operands: seq<Operand>, rest: Option<seq<Operand>>): Option<seq<Operand>> {
    if rest.Some? then Some(operands + rest.value) else None
  }

  lemma BehindNothing(rest: Option<seq<Operand>>)
    ensures Behind([], rest) == rest
  {
    if rest.Some? { assert [] + rest.value == rest.value; }
  }

  lemma BehindNext(operands: seq<Operand>, v: Operand, rest: Option<seq<Operand>>)
    ensures Behind(operands + [v], rest) == Behind(operands, if rest.Some? then Some([v] + rest.value) else None)
  {
    if rest.Some? { ConcatAssoc(operands, [v], rest.value); }
  }
}
