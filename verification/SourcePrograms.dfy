/** Running a whole cQASM 1.2 program as it is written. */
module SourcePrograms {
  import opened Wrappers
  import opened SemanticTree
  import opened Analysis
  import opened Sections
  import opened SourceRuns

  /** The first section of that name.  Statements before the first header cannot be jumped to. */
  function FindSection(ss: seq<Section>, t: string): (k: Option<nat>)
    ensures k.Some? ==> k.value < |ss|
  {
    if ss == [] then None
    else if t != "" && ss[0].name == t then Some(0)
    else
      match FindSection(ss[1..], t)
      case Some(k) => Some(k + 1)
      case None => None
  }

  function Times(ss: seq<Section>, i: nat): nat {
    if i < |ss| && ss[i].count > 0 then ss[i].count else 0
  }

  /** Runs section i n more times and then those after it; a goto goes to the start of its target. */
  function RunSections(ss: seq<Section>, i: nat, n: nat, bits: seq<bool>, fuel: nat): Result
    requires i <= |ss|
    decreases fuel, |ss| - i, n
  {
    if i == |ss| then Result(Normal, [], bits)
    else if n == 0 then RunSections(ss, i + 1, Times(ss, i + 1), bits, fuel)
    else
      var r := RunSource(ss[i].body, ss[i].env, bits, fuel);
      if r.sig == Normal then Prefix(r.trace, RunSections(ss, i, n - 1, r.bits, fuel))
      else if r.sig.Jumps? then
        var k := FindSection(ss, r.sig.target);
        if k.None? || fuel == 0 then r.(sig := Cut)
        else Prefix(r.trace, RunSections(ss, k.value, Times(ss, k.value), r.bits, fuel - 1))
      else r
  }

  function RunProgram(b: ABlock, env: Env, bits: seq<bool>, fuel: nat): Result {
    RunSections(AllSections(b, env), 0, 1, bits, fuel)
  }
}
