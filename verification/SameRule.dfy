/** samerule.c: compares two production rules. */
module SameRules {
  import opened Grammars

  method SameRule(p: Rule, q: Rule) returns (same: bool)
    ensures same <==> p == q
  {
    var i := 0;
    while i < |p| && i < |q|
      invariant 0 <= i <= |p| && i <= |q| && p[..i] == q[..i]
    {
      if p[i] != q[i] { return false; }
      assert p[..i + 1] == p[..i] + [p[i]] && q[..i + 1] == q[..i] + [q[i]];
      i := i + 1;
    }
    same := i == |p| && i == |q|;
    assert p[..|p|] == p && q[..|q|] == q;
  }
}
