/**
 * `Ast::eval` (src/eval.rs): rename, then step, until `step` finds no redex. The loop may run
 * forever, so the model bounds it by `fuel`, the number of contractions it may perform.
 */
module Evaluation {
  import opened Wrappers
  import opened Terms
  import opened Substitution
  import opened Renaming
  import opened Reduction

  /**
   * The value `eval` computes when it stops within `fuel` contractions; `None` when it would
   * need more.
   */
  function Evaluate(t: Ast, fuel: nat): (r: Option<Ast>)
    // what `eval` returns is the output of a renaming pass that `step` cannot reduce
    ensures r.Some? ==> Step(r.value).None? && IsRenamed(r.value)
    decreases fuel
  {
    UniquifiedIsRenamed(t);
    var u := Uniquified(t);
    match Step(u)
    case None => Some(u)
    case Some(next) => if fuel == 0 then None else Evaluate(next, fuel - 1)
  }

  /** The loop of `eval`, cut off after `fuel` contractions. */
  method Eval(ast: Ast, fuel: nat) returns (r: Option<Ast>)
    ensures r == Evaluate(ast, fuel)
    ensures r.Some? ==> Step(r.value).None? && IsRenamed(r.value)
  {
    var current := ast;
    var left := fuel;
    var cont := true;
    r := None;
    while cont
      invariant cont ==> Evaluate(current, left) == Evaluate(ast, fuel)
      invariant cont ==> r == None
      invariant !cont ==> r == Evaluate(ast, fuel)
      decreases left, cont
    {
      current := MakeVariablesUnique(current);
      match Step(current)
      case Some(stepped) =>
        if left == 0 {
          cont := false;
        } else {
          current := stepped;
          left := left - 1;
        }
      case None =>
        r := Some(current);
        cont := false;
    }
  }

  /** Fuel only bounds the run: once `eval` has stopped, more fuel gives the same term. */
  lemma {:induction false} EvaluateMoreFuel(t: Ast, fuel: nat, more: nat)
    requires Evaluate(t, fuel).Some? && fuel <= more
    ensures Evaluate(t, more) == Evaluate(t, fuel)
    decreases fuel
  {
    match Step(Uniquified(t))
    case None =>
    case Some(next) =>
      EvaluateMoreFuel(next, fuel - 1, more - 1);
  }

  /**
   * The result is stable: renaming it again leaves nothing to reduce, so evaluating it once
   * more stops at once.
   */
  lemma EvaluateResultIsNormal(t: Ast, fuel: nat)
    requires Evaluate(t, fuel).Some?
    ensures Step(Uniquified(Evaluate(t, fuel).value)).None?
    ensures Evaluate(Evaluate(t, fuel).value, 0).Some?
  {
    var r := Evaluate(t, fuel).value;
    UniquifiedIsRenamed(r);
    RedexPathsOfSkeleton(Uniquified(r), r);
    StepContractsFirstRedex(r);
    StepContractsFirstRedex(Uniquified(r));
  }
}
