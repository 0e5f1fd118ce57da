/**
 * A renaming pass that skips candidate names already in use: each candidate "v<k>" is checked
 * against the names of the input term, and the next one is tried while it collides. This is
 * what a capture-free alpha-conversion needs. `make_variables_unique` in src/eval.rs counts from
 * "v0" on every call without that check, and `eval` feeds it its own output, which holds such
 * names, so it can capture (`EvalExamples.EvaluationCapturesBoundVariable`).
 */
module FreshRenaming {
  import opened Wrappers
  import opened Terms
  import opened Substitution
  import opened Renaming
  import opened Alpha
  import opened Reduction
  import opened EvalExamples

  /**
   * The first counter value from `k` on whose name is not in `used`. A skipped name is
   * dropped from `used`, since the counter never comes back to it.
   */
  function NextFree(k: nat, used: set<string>): (c: nat)
    ensures c >= k
    decreases |used|
  {
    if Name(k) in used then NextFree(k + 1, used - {Name(k)}) else k
  }

  /** The candidate taken is unused, and every candidate skipped on the way is in use. */
  lemma {:induction false} NextFreeSkipsOnlyUsed(k: nat, used: set<string>)
    ensures Name(NextFree(k, used)) !in used
    ensures forall j :: k <= j < NextFree(k, used) ==> Name(j) in used
    decreases |used|
  {
    if Name(k) in used {
      var c := NextFree(k + 1, used - {Name(k)});
      NextFreeSkipsOnlyUsed(k + 1, used - {Name(k)});
      NameInjective(c, k);
    }
  }

  /** `Rename` with every candidate name checked against `used`. */
  function RenameAvoiding(t: Ast, next: nat, used: set<string>): (r: (Ast, nat))
    ensures r.1 >= next
    ensures Skeleton(r.0) == Skeleton(t)
    decreases Size(t)
  {
    match t
    case Var(_) => (t, next)
    case Lambda(p, b) =>
      var c := NextFree(next, used);
      var renamed := Identifier(Name(c), p.original);
      var body := RenameAvoiding(Replace(b, p.identifier, Var(renamed)), c + 1, used);
      (Lambda(renamed, body.0), body.1)
    case App(f, a) =>
      var func := RenameAvoiding(f, next, used);
      var argument := RenameAvoiding(a, func.1, used);
      (App(func.0, argument.0), argument.1)
  }

  /** The corrected pass: candidates are checked against every name of the input. */
  function FreshUniquified(t: Ast): Ast
  {
    RenameAvoiding(t, 0, AllNames(t)).0
  }

  /** The name a lambda receives is new to its body, and the body keeps the premise below. */
  lemma AvoidingLambda(p: Identifier, b: Ast, next: nat, used: set<string>)
    requires forall k: nat :: k >= next && Name(k) in AllNames(Lambda(p, b)) ==> Name(k) in used
    ensures var c := NextFree(next, used);
            Name(c) !in AllNames(b) &&
            forall k: nat :: k >= c + 1 && Name(k) in AllNames(Replace(b, p.identifier, Var(Identifier(Name(c), p.original)))) ==> Name(k) in used
  {
    var c := NextFree(next, used);
    NextFreeSkipsOnlyUsed(next, used);
    var b' := Replace(b, p.identifier, Var(Identifier(Name(c), p.original)));
    ReplaceNames(b, p.identifier, Var(Identifier(Name(c), p.original)));
    forall k: nat | k >= c + 1 && Name(k) in AllNames(b')
      ensures Name(k) in used
    {
      NameInjective(k, c);
    }
  }

  /**
   * The pass changes only the names of bound variables, as long as every name "v<k>" of the
   * term from the counter on is among the names it avoids.
   */
  lemma {:induction false} RenameAvoidingPreservesNameless(t: Ast, next: nat, used: set<string>, env: seq<string>)
    requires forall k: nat :: k >= next && Name(k) in AllNames(t) ==> Name(k) in used
    ensures ToNameless(RenameAvoiding(t, next, used).0, env) == ToNameless(t, env)
    decreases Size(t)
  {
    match t
    case Var(_) =>
    case Lambda(p, b) =>
      var c := NextFree(next, used);
      var b' := Replace(b, p.identifier, Var(Identifier(Name(c), p.original)));
      AvoidingLambda(p, b, next, used);
      RenameAvoidingPreservesNameless(b', c + 1, used, [Name(c)] + env);
      RenamedLambdaNameless(p, b, Name(c), RenameAvoiding(b', c + 1, used).0, env);
    case App(f, a) =>
      RenameAvoidingPreservesNameless(f, next, used, env);
      RenameAvoidingPreservesNameless(a, RenameAvoiding(f, next, used).1, used, env);
  }

  /** Unlike `make_variables_unique`, the corrected pass is an alpha-conversion on every term. */
  lemma FreshUniquifiedAlphaEquivalent(t: Ast)
    ensures AlphaEquivalent(FreshUniquified(t), t)
  {
    RenameAvoidingPreservesNameless(t, 0, AllNames(t), []);
  }

  /** No binder of the result has a name from `used`. */
  lemma {:induction false} RenameAvoidingBindersUnused(t: Ast, next: nat, used: set<string>)
    ensures BinderNames(RenameAvoiding(t, next, used).0) !! used
    decreases Size(t)
  {
    match t
    case Var(_) =>
    case Lambda(p, b) =>
      var c := NextFree(next, used);
      NextFreeSkipsOnlyUsed(next, used);
      var renamed := Identifier(Name(c), p.original);
      RenameAvoidingBindersUnused(Replace(b, p.identifier, Var(renamed)), c + 1, used);
    case App(f, a) =>
      RenameAvoidingBindersUnused(f, next, used);
      RenameAvoidingBindersUnused(a, RenameAvoiding(f, next, used).1, used);
  }

  /**
   * Every binder of the result has a name the input does not use, so no binder shares its
   * name with a free variable of the result either.
   */
  lemma FreshUniquifiedBindersFresh(t: Ast)
    ensures BinderNames(FreshUniquified(t)) !! AllNames(t)
    ensures BinderNames(FreshUniquified(t)) !! FreeVars(FreshUniquified(t))
    ensures FreeVars(FreshUniquified(t)) == FreeVars(t)
  {
    RenameAvoidingBindersUnused(t, 0, AllNames(t));
    FreshUniquifiedAlphaEquivalent(t);
    AlphaEquivalentFreeVars(FreshUniquified(t), t);
    FreeVarsInAllNames(t);
  }

  // ---------------------------------------------------------------------------
  // `eval` with the corrected pass

  /** The loop of `eval` with `FreshUniquified` in place of `make_variables_unique`. */
  function EvaluateFresh(t: Ast, fuel: nat): (r: Option<Ast>)
    decreases fuel
  {
    var u := FreshUniquified(t);
    match Step(u)
    case None => Some(u)
    case Some(next) => if fuel == 0 then None else EvaluateFresh(next, fuel - 1)
  }

  /** What the corrected loop returns has no redex, and none of its binders shares a name with a free variable. */
  lemma {:induction false} EvaluateFreshResult(t: Ast, fuel: nat)
    requires EvaluateFresh(t, fuel).Some?
    ensures Step(EvaluateFresh(t, fuel).value).None?
    ensures BinderNames(EvaluateFresh(t, fuel).value) !! FreeVars(EvaluateFresh(t, fuel).value)
    decreases fuel
  {
    var u := FreshUniquified(t);
    match Step(u)
    case None =>
      FreshUniquifiedBindersFresh(t);
    case Some(next) =>
      EvaluateFreshResult(next, fuel - 1);
  }

  lemma EvaluateFreshRound(t: Ast, u: Ast, next: Ast, fuel: nat)
    requires FreshUniquified(t) == u && Step(u) == Some(next) && fuel >= 1
    ensures EvaluateFresh(t, fuel) == EvaluateFresh(next, fuel - 1)
  {
  }

  lemma EvaluateFreshLastRound(t: Ast, u: Ast)
    requires FreshUniquified(t) == u && Step(u) == None
    ensures EvaluateFresh(t, 0) == Some(u)
  {
  }

  // ---------------------------------------------------------------------------
  // The corrected loop on `EvalExamples.Capture0`

  const FreshU1 := App(App(RL("v0", "w", R("v0", "w")), RL("v4", "w", R("v4", "w"))), RL("v5", "y", RL("v6", "z", R("v5", "y"))))
  const Fresh2 := App(RL("v4", "w", R("v4", "w")), RL("v5", "y", RL("v6", "z", R("v5", "y"))))
  const FreshU2 := App(RL("v0", "w", R("v0", "w")), RL("v1", "y", RL("v2", "z", R("v1", "y"))))
  const Fresh3 := RL("v1", "y", RL("v2", "z", R("v1", "y")))
  const FreshResult := RL("v0", "y", RL("v3", "z", R("v0", "y")))

  lemma FreshRenamed0()
    ensures FreshUniquified(Capture0) == CaptureU0
  {
    GeneratedNames();
    var used := AllNames(Capture0);
    assert used == {"x", "y", "z", "w"};
    assert NextFree(0, used) == 0 && NextFree(1, used) == 1 && NextFree(2, used) == 2 && NextFree(3, used) == 3;
    assert RenameAvoiding(L("y", L("z", V("y"))), 1, used) == (RL("v1", "y", RL("v2", "z", R("v1", "y"))), 3);
    assert RenameAvoiding(App(App(R("v0", "x"), R("v0", "x")), L("y", L("z", V("y")))), 1, used)
        == (App(App(R("v0", "x"), R("v0", "x")), RL("v1", "y", RL("v2", "z", R("v1", "y")))), 3);
    assert RenameAvoiding(L("w", V("w")), 3, used) == (RL("v3", "w", R("v3", "w")), 4);
  }

  /** Where `make_variables_unique` reuses "v1" to "v3", the corrected pass skips them. */
  lemma FreshRenamed1()
    ensures FreshUniquified(Capture1) == FreshU1
  {
    GeneratedNames();
    MoreGeneratedNames();
    var used := AllNames(Capture1);
    assert used == {"v1", "v2", "v3"};
    assert NextFree(0, used) == 0;
    assert NextFree(4, used - {"v1"} - {"v2"} - {"v3"}) == 4;
    assert NextFree(3, used - {"v1"} - {"v2"}) == 4;
    assert NextFree(2, used - {"v1"}) == 4;
    assert NextFree(1, used) == 4;
    assert NextFree(5, used) == 5 && NextFree(6, used) == 6;
    assert RenameAvoiding(RL("v3", "w", R("v3", "w")), 1, used) == (RL("v4", "w", R("v4", "w")), 5);
    assert Replace(RL("v2", "z", R("v1", "y")), "v1", R("v5", "y")) == RL("v2", "z", R("v5", "y"));
    assert RenameAvoiding(RL("v2", "z", R("v5", "y")), 6, used) == (RL("v6", "z", R("v5", "y")), 7);
    assert RenameAvoiding(RL("v1", "y", RL("v2", "z", R("v1", "y"))), 5, used) == (RL("v5", "y", RL("v6", "z", R("v5", "y"))), 7);
  }

  lemma FreshRenamed2()
    ensures FreshUniquified(Fresh2) == FreshU2
  {
    GeneratedNames();
    MoreGeneratedNames();
    var used := AllNames(Fresh2);
    assert used == {"v4", "v5", "v6"};
    assert NextFree(0, used) == 0 && NextFree(1, used) == 1 && NextFree(2, used) == 2;
    assert Replace(RL("v6", "z", R("v5", "y")), "v5", R("v1", "y")) == RL("v6", "z", R("v1", "y"));
    assert RenameAvoiding(RL("v6", "z", R("v1", "y")), 2, used) == (RL("v2", "z", R("v1", "y")), 3);
  }

  lemma FreshRenamed3()
    ensures FreshUniquified(Fresh3) == FreshResult
  {
    GeneratedNames();
    var used := AllNames(Fresh3);
    assert used == {"v1", "v2"};
    assert NextFree(0, used) == 0;
    assert NextFree(3, used - {"v1"} - {"v2"}) == 3;
    assert NextFree(2, used - {"v1"}) == 3;
    assert NextFree(1, used) == 3;
    assert Replace(RL("v2", "z", R("v1", "y")), "v1", R("v0", "y")) == RL("v2", "z", R("v0", "y"));
    assert RenameAvoiding(RL("v2", "z", R("v0", "y")), 1, used) == (RL("v3", "z", R("v0", "y")), 4);
  }

  lemma FreshFrom2()
    ensures EvaluateFresh(Fresh2, 1) == Some(FreshResult)
  {
    FreshRenamed2();
    assert Step(FreshU2) == Some(Fresh3);
    EvaluateFreshRound(Fresh2, FreshU2, Fresh3, 1);
    FreshRenamed3();
    assert Step(FreshResult) == None;
    EvaluateFreshLastRound(Fresh3, FreshResult);
  }

  lemma FreshFrom1()
    ensures EvaluateFresh(Capture1, 2) == Some(FreshResult)
  {
    FreshRenamed1();
    assert Step(FreshU1) == Some(Fresh2);
    EvaluateFreshRound(Capture1, FreshU1, Fresh2, 2);
    FreshFrom2();
  }

  lemma FreshResultIsExpected()
    ensures AlphaEquivalent(FreshResult, CaptureExpected)
  {
    assert ToNameless(FreshResult, []) == Abs(Abs(Bound(1)));
    assert ToNameless(CaptureExpected, []) == Abs(Abs(Bound(1)));
  }

  /** On the term `eval` gets wrong, the corrected loop returns its normal form `#y -> #z -> y`. */
  lemma EvaluateFreshAvoidsCapture()
    ensures EvaluateFresh(Capture0, 3) == Some(FreshResult)
    ensures AlphaEquivalent(FreshResult, CaptureExpected)
  {
    FreshRenamed0();
    CaptureStep0();
    EvaluateFreshRound(Capture0, CaptureU0, Capture1, 3);
    FreshFrom1();
    FreshResultIsExpected();
  }
}
