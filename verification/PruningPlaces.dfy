/** How exact the proviso of the pruning is: it holds if and only if every statement that may be reached is right to
    be replaced by what it is pruned to. */
module PruningPlaces {
  import opened SemanticTree
  import opened Pruning

  /** The statements of b that may be reached, each with whether nothing follows it in the loop around. */
  function Places(b: Block, last: bool): set<(Stmt, bool)>
    decreases b, 0
  {
    if b == [] then {}
    else
      {(b[0], last && |b| == 1)} + PlacesInside(b[0], last && |b| == 1)
      + (if Normal in MayStmt(b[0]) then Places(b[1..], last) else {})
  }

  function PlacesBranches(branches: seq<Branch>, last: bool): set<(Stmt, bool)>
    decreases branches, 0
  {
    if branches == [] then {}
    else if branches[0].cond == TRUE then Places(branches[0].body, last)
    else
      (if branches[0].cond == FALSE then {} else Places(branches[0].body, last))
      + PlacesBranches(branches[1..], last)
  }

  function PlacesElse(e: Else, last: bool): set<(Stmt, bool)>
    decreases e, 0
  {
    match e case NoElse => {} case Else(b) => Places(b, last)
  }

  function PlacesInside(s: Stmt, last: bool): set<(Stmt, bool)>
    decreases s, 1
  {
    match s
    case IfElse(branches, otherwise) =>
      PlacesBranches(branches, last) + (if Exhaustive(branches) then {} else PlacesElse(otherwise, last))
    case For(_, cond, _, body) => if cond == FALSE then {} else Places(body, true)
    case Foreach(_, _, _, body) => Places(body, true)
    case While(cond, body) => if cond == FALSE then {} else Places(body, true)
    case RepeatUntil(body, cond) => Places(body, cond != TRUE || last)
    case _ => {}
  }

  /** What s is pruned to runs like s, in this place. */
  ghost predicate RightAt(s: Stmt, last: bool) {
    forall bits, fuel :: Agrees(last, Exec(PruneStmt(s), bits, fuel), Exec([s], bits, fuel))
  }

  ghost predicate AllRight(places: set<(Stmt, bool)>) {
    forall s, last :: (s, last) in places ==> RightAt(s, last)
  }

  lemma AllRightUnion(a: set<(Stmt, bool)>, b: set<(Stmt, bool)>)
    ensures AllRight(a + b) <==> AllRight(a) && AllRight(b)
  {
  }

  lemma AllRightOne(s: Stmt, last: bool)
    ensures AllRight({(s, last)}) <==> RightAt(s, last)
  {
    assert (s, last) in {(s, last)};
  }

  /** The proviso holds if and only if the pruning is right in every place that may be reached. */
  lemma {:induction false} TameExactly(b: Block, last: bool)
    ensures Tame(b, last) <==> AllRight(Places(b, last))
    decreases b, 0
  {
    if b != [] {
      var here := last && |b| == 1;
      TameStmtExactly(b[0], here);
      TameExactly(b[1..], last);
      AllRightOne(b[0], here);
      AllRightUnion({(b[0], here)}, PlacesInside(b[0], here));
      AllRightUnion({(b[0], here)} + PlacesInside(b[0], here),
        if Normal in MayStmt(b[0]) then Places(b[1..], last) else {});
    }
  }

  lemma {:induction false} TameBranchesExactly(branches: seq<Branch>, last: bool)
    ensures TameBranches(branches, last) <==> AllRight(PlacesBranches(branches, last))
    decreases branches, 0
  {
    if branches != [] {
      TameExactly(branches[0].body, last);
      TameBranchesExactly(branches[1..], last);
      AllRightUnion(if branches[0].cond == FALSE then {} else Places(branches[0].body, last),
        PlacesBranches(branches[1..], last));
    }
  }

  lemma {:induction false} TameStmtExactly(s: Stmt, last: bool)
    ensures TameStmt(s, last) <==> RightAt(s, last) && AllRight(PlacesInside(s, last))
    decreases s, 1
  {
    match s {
      case IfElse(branches, otherwise) =>
        TameBranchesExactly(branches, last);
        if otherwise.Else? { TameExactly(otherwise.block, last); }
        AllRightUnion(PlacesBranches(branches, last),
          if Exhaustive(branches) then {} else PlacesElse(otherwise, last));
      case For(_, _, _, body) => TameExactly(body, true);
      case Foreach(_, _, _, body) => TameExactly(body, true);
      case While(_, body) => TameExactly(body, true);
      case RepeatUntil(body, cond) =>
        TameExactly(body, cond != TRUE || last);
        if cond == TRUE && RightAt(s, last) && Tame(body, last) { RightSpliceable(body, last); }
      case _ =>
    }
    if TameStmt(s, last) { TameRight(s, last); }
  }

  lemma TameRight(s: Stmt, last: bool)
    requires TameStmt(s, last)
    ensures RightAt(s, last)
  {
    forall bits, fuel ensures Agrees(last, Exec(PruneStmt(s), bits, fuel), Exec([s], bits, fuel)) {
      PruneStmtAgrees(s, last, bits, fuel);
      ExecOne(s, bits, fuel);
    }
  }

  /** If splicing a body that is right itself is right, no break leaves it, and a continue only in the last place. */
  lemma RightSpliceable(body: Block, last: bool)
    requires RightAt(RepeatUntil(body, TRUE), last) && Tame(body, last)
    ensures Spliceable(body, last)
  {
    var s := RepeatUntil(body, TRUE);
    if !Spliceable(body, last) {
      var bits := Reach(body, if Breaks in May(body) then Breaks else Continues);
      assert Agrees(last, Exec(PruneStmt(s), bits, 0), Exec([s], bits, 0));
      ExecOne(s, bits, 0);
      PruneAgrees(body, last, bits, 0);
    }
  }

  /** A whole program may be right by chance, the rest of it doing what the escape leads to:
      while (x) { repeat { break } until (true); break }. */
  lemma RightByChance(x: Value, bits: seq<bool>, fuel: nat)
    requires x.Dynamic?
    ensures var b := [While(x, [RepeatUntil([Break], TRUE), Break])];
      Exec(Prune(b), bits, fuel) == Exec(b, bits, fuel) && !Tame(b, false)
  {
    var r := RepeatUntil([Break], TRUE);
    var body := [r, Break];
    var w := While(x, body);
    assert [Break][1..] == [] && body[0] == r && body[1..] == [Break] && [w][1..] == [];
    assert Prune([Break]) == [Break] && Prune(body) == [Break, Break] && Prune([w]) == [While(x, [Break, Break])];
    assert Breaks in May([Break]) && !TameStmt(r, false) && !Tame(body, true);
    var rest := Test(x, bits).2;
    ExecOne(Break, rest, fuel);
    assert ExecStmt(r, rest, fuel) == Result(Normal, [], rest);
    assert Exec([Break, Break], rest, fuel) == Result(Breaks, [], rest) == Exec(body, rest, fuel);
    LoopPass(w, While(x, [Break, Break]), bits, fuel);
    ExecOne(w, bits, fuel);
    ExecOne(While(x, [Break, Break]), bits, fuel);
  }
}
