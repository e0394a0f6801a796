/** What the dependency check is for: a configuration that passes it has exactly one assignment of values, and
    evaluation on demand finds it in whatever order the values are asked for. */
module Checked {
  import opened Tristate
  import opened Expressions
  import opened Symbols
  import opened Evaluator
  import C = CheckDeps

  /** A table without choices whose check reports no error has exactly one solution, whatever the user has set. */
  lemma CheckedTableHasOneSolution(t: Table, user: seq<Option<Tri>>, modules: Tri)
    requires WellFormed(t) && BoolOrTristate(t) && AllPlain(t) && |user| == |t| && C.CheckAll(t, true) == 0
    ensures exists v :: Solves(t, user, modules, v)
    ensures forall v, w :: Solves(t, user, modules, v) && Solves(t, user, modules, w) ==> v == w
    ensures exists rank :: Ranked(t, rank)
  {
    assert C.ChoiceTable(t);
    C.CheckDecides(t);
    var rank :| Ranked(t, rank);
    UniqueSolution(t, rank, user, modules);
  }

  /** Checking a configuration and then asking for values in any order, repetitions included, gives the values of
      its solution. */
  method CheckAndEvaluate(t: Table, user: seq<Option<Tri>>, modules: Tri, order: seq<nat>)
    returns (errors: nat, values: seq<Tri>)
    requires WellFormed(t) && BoolOrTristate(t) && AllPlain(t) && |user| == |t|
    requires forall k :: 0 <= k < |order| ==> order[k] < |t|
    ensures errors == C.CheckAll(t, true)
    ensures errors == 0 ==> |values| == |order| && forall v, k :: Solves(t, user, modules, v) && 0 <= k < |order| ==>
            values[k] == v[order[k]]
  {
    assert C.ChoiceTable(t);
    var checker := new C.Checker(t, true);
    errors := checker.CheckTable();
    values := [];
    if errors == 0 {
      CheckedTableHasOneSolution(t, user, modules);
      ghost var v :| Solves(t, user, modules, v);
      ghost var rank :| Ranked(t, rank);
      var config := new Config(t, modules, user);
      while |values| < |order|
        invariant |values| <= |order| && config.Good(v, rank, {}) && fresh(config)
        invariant config.table == t && config.user == user && config.modules == modules
        invariant forall k :: 0 <= k < |values| ==> values[k] == v[order[k]]
      {
        var r := config.Read(order[|values|], v, rank);
        values := values + [r];
      }
    }
  }
}
