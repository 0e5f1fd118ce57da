/**
 * The expected results of the tests in src/eval.rs, stated on terms rather than on rendered
 * strings. Each run is written out as the terms the loop of `eval` passes through: `<Test>k` is
 * the term at the start of round k, `<Test>Uk` the same term after the renaming pass.
 */
module EvalExamples {
  import opened Wrappers
  import opened Terms
  import opened Substitution
  import opened Renaming
  import opened Reduction
  import opened Evaluation
  import Alpha

  /** A name as written in the source of a test. */
  function V(name: string): Ast { Var(Id(name)) }
  function L(name: string, body: Ast): Ast { Lambda(Id(name), body) }

  /** A renamed variable and a lambda with a renamed parameter: current name and original name. */
  function R(name: string, original: string): Ast { Var(Identifier(name, original)) }
  function RL(name: string, original: string, body: Ast): Ast { Lambda(Identifier(name, original), body) }

  lemma GeneratedNames()
    ensures Name(0) == "v0" && Name(1) == "v1" && Name(2) == "v2" && Name(3) == "v3" && Name(4) == "v4"
  {
  }

  lemma MoreGeneratedNames()
    ensures Name(5) == "v5" && Name(6) == "v6"
  {
  }

  /** One round of the loop of `eval` that performs a contraction. */
  lemma EvaluateRound(t: Ast, u: Ast, next: Ast, fuel: nat)
    requires Uniquified(t) == u && Step(u) == Some(next) && fuel >= 1
    ensures Evaluate(t, fuel) == Evaluate(next, fuel - 1)
  {
  }

  /** The last round: nothing left to contract. */
  lemma EvaluateLastRound(t: Ast, u: Ast)
    requires Uniquified(t) == u && Step(u) == None
    ensures Evaluate(t, 0) == Some(u)
  {
  }

  // ---------------------------------------------------------------------------
  // evaluates_identity_function

  const Identity0 := App(L("x", V("x")), V("y"))

  /** `(#x -> x) y` evaluates to `y`. */
  lemma EvaluatesIdentityFunction()
    ensures Evaluate(Identity0, 1) == Some(V("y"))
  {
    GeneratedNames();
    var u := App(RL("v0", "x", R("v0", "x")), V("y"));
    assert Uniquified(Identity0) == u;
    EvaluateRound(Identity0, u, V("y"), 1);
    EvaluateLastRound(V("y"), V("y"));
  }

  // ---------------------------------------------------------------------------
  // does_terminate_on_free_variable_applications

  /** `a b` has no redex and comes back as it is. */
  lemma TerminatesOnFreeVariableApplications()
    ensures Evaluate(App(V("a"), V("b")), 0) == Some(App(V("a"), V("b")))
  {
    EvaluateLastRound(App(V("a"), V("b")), App(V("a"), V("b")));
  }

  // ---------------------------------------------------------------------------
  // make_all_variables_unique

  /** `(#x -> #y -> x y) (#x -> x)` renames to `(#v0<x> -> #v1<y> -> v0<x> v1<y>) (#v2<x> -> v2<x>)`. */
  lemma MakesAllVariablesUnique()
    ensures Uniquified(App(L("x", L("y", App(V("x"), V("y")))), L("x", V("x"))))
         == App(RL("v0", "x", RL("v1", "y", App(R("v0", "x"), R("v1", "y")))),
                RL("v2", "x", R("v2", "x")))
  {
    GeneratedNames();
    assert Rename(L("y", App(R("v0", "x"), V("y"))), 1) == (RL("v1", "y", App(R("v0", "x"), R("v1", "y"))), 2);
    assert Rename(L("x", V("x")), 2) == (RL("v2", "x", R("v2", "x")), 3);
  }

  // ---------------------------------------------------------------------------
  // proper_alpha_conversion

  const Clashing0 := L("clashing", App(L("x", L("clashing", App(V("clashing"), V("x")))), V("clashing")))
  const ClashingU0 := RL("v0", "clashing", App(RL("v1", "x", RL("v2", "clashing", App(R("v2", "clashing"), R("v1", "x")))),
                                                R("v0", "clashing")))
  const Clashing1 := RL("v0", "clashing", RL("v2", "clashing", App(R("v2", "clashing"), R("v0", "clashing"))))
  const ClashingU1 := RL("v0", "clashing", RL("v1", "clashing", App(R("v1", "clashing"), R("v0", "clashing"))))

  lemma ClashingRenamed0()
    ensures Uniquified(Clashing0) == ClashingU0
  {
    GeneratedNames();
    assert Rename(L("clashing", App(V("clashing"), R("v1", "x"))), 2)
        == (RL("v2", "clashing", App(R("v2", "clashing"), R("v1", "x"))), 3);
    assert Rename(L("x", L("clashing", App(V("clashing"), V("x")))), 1)
        == (RL("v1", "x", RL("v2", "clashing", App(R("v2", "clashing"), R("v1", "x")))), 3);
  }

  lemma ClashingRenamed1()
    ensures Uniquified(Clashing1) == ClashingU1
  {
    GeneratedNames();
    assert Rename(RL("v2", "clashing", App(R("v2", "clashing"), R("v0", "clashing"))), 1)
        == (RL("v1", "clashing", App(R("v1", "clashing"), R("v0", "clashing"))), 2);
  }

  /** `#clashing -> (#x -> #clashing -> clashing x) clashing` keeps the two binders apart. */
  lemma ProperAlphaConversion()
    ensures Evaluate(Clashing0, 1) == Some(ClashingU1)
  {
    ClashingRenamed0();
    assert Step(ClashingU0) == Some(Clashing1);
    EvaluateRound(Clashing0, ClashingU0, Clashing1, 1);
    ClashingRenamed1();
    assert Step(ClashingU1) == None;
    EvaluateLastRound(Clashing1, ClashingU1);
  }

  // ---------------------------------------------------------------------------
  // allows_to_implement_fst

  const Pair := L("t", App(App(V("t"), V("x")), V("y")))
  const First := L("a", L("b", V("a")))
  const Fst0 := App(L("tuple", App(V("tuple"), First)), Pair)
  const FirstU := RL("v1", "a", RL("v2", "b", R("v1", "a")))
  const FstU0 := App(RL("v0", "tuple", App(R("v0", "tuple"), FirstU)), RL("v3", "t", App(App(R("v3", "t"), V("x")), V("y"))))
  const Fst1 := App(RL("v3", "t", App(App(R("v3", "t"), V("x")), V("y"))), FirstU)
  const FstU1 := App(RL("v0", "t", App(App(R("v0", "t"), V("x")), V("y"))), FirstU)
  const Fst2 := App(App(FirstU, V("x")), V("y"))
  const FstU2 := App(App(RL("v0", "a", RL("v1", "b", R("v0", "a"))), V("x")), V("y"))
  const Fst3 := App(RL("v1", "b", V("x")), V("y"))
  const FstU3 := App(RL("v0", "b", V("x")), V("y"))

  lemma FirstRenamed()
    ensures Rename(First, 1) == (FirstU, 3)
  {
    GeneratedNames();
    assert Replace(L("b", V("a")), "a", R("v1", "a")) == L("b", R("v1", "a"));
    assert Rename(L("b", R("v1", "a")), 2) == (RL("v2", "b", R("v1", "a")), 3);
  }

  lemma FstRenamed0()
    ensures Uniquified(Fst0) == FstU0
  {
    GeneratedNames();
    FirstRenamed();
    assert Replace(App(V("tuple"), First), "tuple", R("v0", "tuple")) == App(R("v0", "tuple"), First);
    assert Rename(App(R("v0", "tuple"), First), 1) == (App(R("v0", "tuple"), FirstU), 3);
    assert Rename(Pair, 3) == (RL("v3", "t", App(App(R("v3", "t"), V("x")), V("y"))), 4);
  }

  lemma FstRenamed1()
    ensures Uniquified(Fst1) == FstU1
  {
    GeneratedNames();
    assert Rename(RL("v2", "b", R("v1", "a")), 2) == (RL("v2", "b", R("v1", "a")), 3);
    assert Rename(FirstU, 1) == (FirstU, 3);
  }

  lemma FstRenamed2()
    ensures Uniquified(Fst2) == FstU2
  {
    GeneratedNames();
    assert Rename(RL("v2", "b", R("v0", "a")), 1) == (RL("v1", "b", R("v0", "a")), 2);
  }

  /** `(#tuple -> tuple (#a -> #b -> a)) (#t -> t x y)` evaluates to `x`. */
  lemma ImplementsFst()
    ensures Evaluate(Fst0, 4) == Some(V("x"))
  {
    FstRenamed0();
    assert Step(FstU0) == Some(Fst1);
    EvaluateRound(Fst0, FstU0, Fst1, 4);
    FstRenamed1();
    assert Step(FstU1) == Some(Fst2);
    EvaluateRound(Fst1, FstU1, Fst2, 3);
    FstRenamed2();
    assert Step(FstU2) == Some(Fst3);
    EvaluateRound(Fst2, FstU2, Fst3, 2);
    GeneratedNames();
    assert Uniquified(Fst3) == FstU3;
    assert Step(FstU3) == Some(V("x"));
    EvaluateRound(Fst3, FstU3, V("x"), 1);
    EvaluateLastRound(V("x"), V("x"));
  }

  // ---------------------------------------------------------------------------
  // allows_to_implement_not_without_alpha_conversion

  /** The encoding of `true` that both `not` tests apply `not` to, and its renamings on the way. */
  const True := L("t", L("f", V("t")))
  const TrueU3 := RL("v3", "t", RL("v4", "f", R("v3", "t")))
  const TrueU2 := RL("v2", "t", RL("v3", "f", R("v2", "t")))

  lemma TrueRenamed()
    ensures Rename(True, 3) == (TrueU3, 5)
  {
    GeneratedNames();
    assert Rename(L("f", R("v3", "t")), 4) == (RL("v4", "f", R("v3", "t")), 5);
  }

  lemma TrueRenamedAgain()
    ensures Rename(TrueU3, 2) == (TrueU2, 4)
  {
    GeneratedNames();
    assert Rename(RL("v4", "f", R("v2", "t")), 3) == (RL("v3", "f", R("v2", "t")), 4);
  }

  /** The renamed `true` has no free variable, so substitution leaves it alone. */
  lemma TrueIsClosed()
    ensures forall v, r :: Replace(TrueU3, v, r) == TrueU3
  {
    forall v, r ensures Replace(TrueU3, v, r) == TrueU3 {
      ReplaceNotFree(TrueU3, v, r);
    }
  }

  const NotPlain0 := App(L("b", L("tt", L("ff", App(App(V("b"), V("ff")), V("tt"))))), True)
  const NotPlainU0 := App(RL("v0", "b", RL("v1", "tt", RL("v2", "ff", App(App(R("v0", "b"), R("v2", "ff")), R("v1", "tt"))))), TrueU3)
  const NotPlain1 := RL("v1", "tt", RL("v2", "ff", App(App(TrueU3, R("v2", "ff")), R("v1", "tt"))))
  const NotPlainU1 := RL("v0", "tt", RL("v1", "ff", App(App(TrueU2, R("v1", "ff")), R("v0", "tt"))))
  const NotPlain2 := RL("v0", "tt", RL("v1", "ff", App(RL("v3", "f", R("v1", "ff")), R("v0", "tt"))))
  const NotPlainU2 := RL("v0", "tt", RL("v1", "ff", App(RL("v2", "f", R("v1", "ff")), R("v0", "tt"))))
  const NotPlainResult := RL("v0", "tt", RL("v1", "ff", R("v1", "ff")))

  lemma NotPlainBodyRenamed()
    ensures Rename(L("tt", L("ff", App(App(R("v0", "b"), V("ff")), V("tt")))), 1)
         == (RL("v1", "tt", RL("v2", "ff", App(App(R("v0", "b"), R("v2", "ff")), R("v1", "tt")))), 3)
  {
    GeneratedNames();
    assert Rename(L("ff", App(App(R("v0", "b"), V("ff")), R("v1", "tt"))), 2)
        == (RL("v2", "ff", App(App(R("v0", "b"), R("v2", "ff")), R("v1", "tt"))), 3);
  }

  lemma NotPlainRenamed0()
    ensures Uniquified(NotPlain0) == NotPlainU0
  {
    GeneratedNames();
    NotPlainBodyRenamed();
    TrueRenamed();
  }

  lemma NotPlainRenamed1()
    ensures Uniquified(NotPlain1) == NotPlainU1
  {
    GeneratedNames();
    TrueRenamedAgain();
    TrueIsClosed();
    assert Rename(RL("v2", "ff", App(App(TrueU3, R("v2", "ff")), R("v0", "tt"))), 1)
        == (RL("v1", "ff", App(App(TrueU2, R("v1", "ff")), R("v0", "tt"))), 4);
  }

  lemma NotPlainRenamed2()
    ensures Uniquified(NotPlain2) == NotPlainU2
  {
    GeneratedNames();
    assert Rename(RL("v3", "f", R("v1", "ff")), 2) == (RL("v2", "f", R("v1", "ff")), 3);
  }

  /** `(#b -> #tt -> #ff -> b ff tt) (#t -> #f -> t)` evaluates to `#v0<tt> -> #v1<ff> -> v1<ff>`. */
  lemma ImplementsNotWithoutAlphaConversion()
    ensures Evaluate(NotPlain0, 3) == Some(NotPlainResult)
  {
    NotPlainRenamed0();
    assert Step(NotPlainU0) == Some(NotPlain1);
    EvaluateRound(NotPlain0, NotPlainU0, NotPlain1, 3);
    NotPlainFrom1();
  }

  lemma NotPlainFrom1()
    ensures Evaluate(NotPlain1, 2) == Some(NotPlainResult)
  {
    NotPlainRenamed1();
    assert Step(NotPlainU1) == Some(NotPlain2);
    EvaluateRound(NotPlain1, NotPlainU1, NotPlain2, 2);
    NotPlainFrom2();
  }

  lemma NotPlainFrom2()
    ensures Evaluate(NotPlain2, 1) == Some(NotPlainResult)
  {
    NotPlainRenamed2();
    assert Step(NotPlainU2) == Some(NotPlainResult);
    EvaluateRound(NotPlain2, NotPlainU2, NotPlainResult, 1);
    GeneratedNames();
    assert Uniquified(NotPlainResult) == NotPlainResult;
    EvaluateLastRound(NotPlainResult, NotPlainResult);
  }

  // ---------------------------------------------------------------------------
  // allows_to_implement_not_with_alpha_conversion

  const NotClash0 := App(L("b", L("t", L("f", App(App(V("b"), V("f")), V("t"))))), True)
  const NotClashU0 := App(RL("v0", "b", RL("v1", "t", RL("v2", "f", App(App(R("v0", "b"), R("v2", "f")), R("v1", "t"))))), TrueU3)
  const NotClash1 := RL("v1", "t", RL("v2", "f", App(App(TrueU3, R("v2", "f")), R("v1", "t"))))
  const NotClashU1 := RL("v0", "t", RL("v1", "f", App(App(TrueU2, R("v1", "f")), R("v0", "t"))))
  const NotClash2 := RL("v0", "t", RL("v1", "f", App(RL("v3", "f", R("v1", "f")), R("v0", "t"))))
  const NotClashU2 := RL("v0", "t", RL("v1", "f", App(RL("v2", "f", R("v1", "f")), R("v0", "t"))))
  const NotClashResult := RL("v0", "t", RL("v1", "f", R("v1", "f")))

  lemma NotClashBodyRenamed()
    ensures Rename(L("t", L("f", App(App(R("v0", "b"), V("f")), V("t")))), 1)
         == (RL("v1", "t", RL("v2", "f", App(App(R("v0", "b"), R("v2", "f")), R("v1", "t")))), 3)
  {
    GeneratedNames();
    assert Rename(L("f", App(App(R("v0", "b"), V("f")), R("v1", "t"))), 2)
        == (RL("v2", "f", App(App(R("v0", "b"), R("v2", "f")), R("v1", "t"))), 3);
  }

  lemma NotClashRenamed0()
    ensures Uniquified(NotClash0) == NotClashU0
  {
    GeneratedNames();
    NotClashBodyRenamed();
    TrueRenamed();
  }

  lemma NotClashRenamed1()
    ensures Uniquified(NotClash1) == NotClashU1
  {
    GeneratedNames();
    TrueRenamedAgain();
    TrueIsClosed();
    assert Rename(RL("v2", "f", App(App(TrueU3, R("v2", "f")), R("v0", "t"))), 1)
        == (RL("v1", "f", App(App(TrueU2, R("v1", "f")), R("v0", "t"))), 4);
  }

  lemma NotClashRenamed2()
    ensures Uniquified(NotClash2) == NotClashU2
  {
    GeneratedNames();
    assert Rename(RL("v3", "f", R("v1", "f")), 2) == (RL("v2", "f", R("v1", "f")), 3);
  }

  /**
   * `(#b -> #t -> #f -> b f t) (#t -> #f -> t)`: the names of `not` and of `true` clash, and the
   * renaming keeps them apart. The result is `#v0<t> -> #v1<f> -> v1<f>`.
   */
  lemma ImplementsNotWithAlphaConversion()
    ensures Evaluate(NotClash0, 3) == Some(NotClashResult)
  {
    NotClashRenamed0();
    assert Step(NotClashU0) == Some(NotClash1);
    EvaluateRound(NotClash0, NotClashU0, NotClash1, 3);
    NotClashFrom1();
  }

  lemma NotClashFrom1()
    ensures Evaluate(NotClash1, 2) == Some(NotClashResult)
  {
    NotClashRenamed1();
    assert Step(NotClashU1) == Some(NotClash2);
    EvaluateRound(NotClash1, NotClashU1, NotClash2, 2);
    NotClashFrom2();
  }

  lemma NotClashFrom2()
    ensures Evaluate(NotClash2, 1) == Some(NotClashResult)
  {
    NotClashRenamed2();
    assert Step(NotClashU2) == Some(NotClashResult);
    EvaluateRound(NotClash2, NotClashU2, NotClashResult, 1);
    GeneratedNames();
    assert Uniquified(NotClashResult) == NotClashResult;
    EvaluateLastRound(NotClashResult, NotClashResult);
  }

  // ---------------------------------------------------------------------------
  // allows_to_implement_apply

  const Apply0 := App(App(L("fun", L("x", App(V("fun"), V("x")))), L("x", V("x"))), True)
  const ApplyU0 := App(App(RL("v0", "fun", RL("v1", "x", App(R("v0", "fun"), R("v1", "x")))), RL("v2", "x", R("v2", "x"))), TrueU3)
  const Apply1 := App(RL("v1", "x", App(RL("v2", "x", R("v2", "x")), R("v1", "x"))), TrueU3)
  const ApplyU1 := App(RL("v0", "x", App(RL("v1", "x", R("v1", "x")), R("v0", "x"))), TrueU2)
  const Apply2 := App(RL("v1", "x", R("v1", "x")), TrueU2)
  const TrueU1 := RL("v1", "t", RL("v2", "f", R("v1", "t")))
  const ApplyU2 := App(RL("v0", "x", R("v0", "x")), TrueU1)
  const ApplyResult := RL("v0", "t", RL("v1", "f", R("v0", "t")))

  lemma ApplyRenamed0()
    ensures Uniquified(Apply0) == ApplyU0
  {
    GeneratedNames();
    TrueRenamed();
    assert Rename(L("x", App(R("v0", "fun"), V("x"))), 1) == (RL("v1", "x", App(R("v0", "fun"), R("v1", "x"))), 2);
    assert Rename(L("x", V("x")), 2) == (RL("v2", "x", R("v2", "x")), 3);
  }

  lemma ApplyRenamed1()
    ensures Uniquified(Apply1) == ApplyU1
  {
    GeneratedNames();
    TrueRenamedAgain();
    assert Rename(RL("v2", "x", R("v2", "x")), 1) == (RL("v1", "x", R("v1", "x")), 2);
  }

  lemma ApplyRenamed2()
    ensures Uniquified(Apply2) == ApplyU2
  {
    GeneratedNames();
    assert Rename(RL("v3", "f", R("v1", "t")), 2) == (RL("v2", "f", R("v1", "t")), 3);
  }

  lemma ApplyRenamed3()
    ensures Uniquified(TrueU1) == ApplyResult
  {
    GeneratedNames();
    assert Rename(RL("v2", "f", R("v0", "t")), 1) == (RL("v1", "f", R("v0", "t")), 2);
  }

  /** `(#fun -> #x -> fun x) (#x -> x) (#t -> #f -> t)` evaluates to `#v0<t> -> #v1<f> -> v0<t>`. */
  lemma ImplementsApply()
    ensures Evaluate(Apply0, 3) == Some(ApplyResult)
  {
    ApplyRenamed0();
    assert Step(ApplyU0) == Some(Apply1);
    EvaluateRound(Apply0, ApplyU0, Apply1, 3);
    ApplyRenamed1();
    assert Step(ApplyU1) == Some(Apply2);
    EvaluateRound(Apply1, ApplyU1, Apply2, 2);
    ApplyRenamed2();
    assert Step(ApplyU2) == Some(TrueU1);
    EvaluateRound(Apply2, ApplyU2, TrueU1, 1);
    ApplyRenamed3();
    assert Step(ApplyResult) == None;
    EvaluateLastRound(TrueU1, ApplyResult);
  }

  // ---------------------------------------------------------------------------
  // A term without any name "v<k>" on which `eval` captures a variable

  /**
   * `(#x -> x x (#y -> #z -> y)) (#w -> w)`: its normal form is `#y -> #z -> y`. The first
   * contraction leaves the binders "v1" and "v2" of the first round in the term, and the second
   * round hands "v2" to the outer of them, so `replace` turns the inner body `v1` into `v2`.
   */
  const Capture0 := App(L("x", App(App(V("x"), V("x")), L("y", L("z", V("y"))))), L("w", V("w")))
  const CaptureU0 := App(RL("v0", "x", App(App(R("v0", "x"), R("v0", "x")), RL("v1", "y", RL("v2", "z", R("v1", "y"))))),
                         RL("v3", "w", R("v3", "w")))
  const Capture1 := App(App(RL("v3", "w", R("v3", "w")), RL("v3", "w", R("v3", "w"))), RL("v1", "y", RL("v2", "z", R("v1", "y"))))
  const CaptureU1 := App(App(RL("v0", "w", R("v0", "w")), RL("v1", "w", R("v1", "w"))), RL("v2", "y", RL("v3", "z", R("v3", "z"))))
  const Capture2 := App(RL("v1", "w", R("v1", "w")), RL("v2", "y", RL("v3", "z", R("v3", "z"))))
  const CaptureU2 := App(RL("v0", "w", R("v0", "w")), RL("v1", "y", RL("v2", "z", R("v2", "z"))))
  const Capture3 := RL("v1", "y", RL("v2", "z", R("v2", "z")))
  const CaptureResult := RL("v0", "y", RL("v1", "z", R("v1", "z")))
  /** The normal form of `Capture0` up to the names of its binders. */
  const CaptureExpected := RL("v0", "y", RL("v1", "z", R("v0", "y")))

  lemma CaptureRenamed0()
    ensures Uniquified(Capture0) == CaptureU0
  {
    GeneratedNames();
    assert Rename(L("y", L("z", V("y"))), 1) == (RL("v1", "y", RL("v2", "z", R("v1", "y"))), 3);
    assert Rename(App(App(R("v0", "x"), R("v0", "x")), L("y", L("z", V("y")))), 1)
        == (App(App(R("v0", "x"), R("v0", "x")), RL("v1", "y", RL("v2", "z", R("v1", "y")))), 3);
    assert Rename(L("w", V("w")), 3) == (RL("v3", "w", R("v3", "w")), 4);
  }

  /** The first contraction puts the argument `#v3<w> -> v3<w>` in place of both `v0<x>`. */
  lemma CaptureStep0()
    ensures Step(CaptureU0) == Some(Capture1)
  {
  }

  lemma CaptureStep1()
    ensures Step(CaptureU1) == Some(Capture2)
  {
  }

  lemma CaptureStep2()
    ensures Step(CaptureU2) == Some(Capture3)
  {
  }

  /** The second renaming round: the outer binder "v1" becomes "v2", which is the inner binder's name. */
  lemma CaptureRenamed1()
    ensures Uniquified(Capture1) == CaptureU1
  {
    GeneratedNames();
    assert Replace(RL("v2", "z", R("v1", "y")), "v1", R("v2", "y")) == RL("v2", "z", R("v2", "y"));
    assert Rename(RL("v2", "z", R("v2", "y")), 3) == (RL("v3", "z", R("v3", "z")), 4);
    assert Rename(RL("v1", "y", RL("v2", "z", R("v1", "y"))), 2) == (RL("v2", "y", RL("v3", "z", R("v3", "z"))), 4);
  }

  lemma CaptureRenamed2()
    ensures Uniquified(Capture2) == CaptureU2
  {
    GeneratedNames();
    assert Rename(RL("v3", "z", R("v3", "z")), 2) == (RL("v2", "z", R("v2", "z")), 3);
  }

  lemma CaptureRenamed3()
    ensures Uniquified(Capture3) == CaptureResult
  {
    GeneratedNames();
    assert Rename(RL("v2", "z", R("v2", "z")), 1) == (RL("v1", "z", R("v1", "z")), 2);
  }

  /** The input is closed and holds none of the names the first renaming hands out. */
  lemma CaptureInputIsOrdinary()
    ensures FreeVars(Capture0) == {} && Alpha.NoGeneratedNamesFrom(Capture0, 0)
  {
    GeneratedNames();
    assert AllNames(Capture0) == {"x", "y", "z", "w"};
    assert |Binders(Capture0)| == 4;
  }

  /** The second round's renaming is not an alpha-conversion, although its input is closed. */
  lemma CaptureInSecondRound()
    ensures FreeVars(Capture1) == {} && !Alpha.AlphaEquivalent(Uniquified(Capture1), Capture1)
  {
    CaptureRenamed1();
    assert Alpha.ToNameless(RL("v2", "y", RL("v3", "z", R("v3", "z"))), []) == Alpha.Abs(Alpha.Abs(Alpha.Bound(0)));
    assert Alpha.ToNameless(RL("v1", "y", RL("v2", "z", R("v1", "y"))), []) == Alpha.Abs(Alpha.Abs(Alpha.Bound(1)));
  }

  lemma CaptureFrom2()
    ensures Evaluate(Capture2, 1) == Some(CaptureResult)
  {
    CaptureRenamed2();
    CaptureStep2();
    EvaluateRound(Capture2, CaptureU2, Capture3, 1);
    CaptureRenamed3();
    assert Step(CaptureResult) == None;
    EvaluateLastRound(Capture3, CaptureResult);
  }

  lemma CaptureFrom1()
    ensures Evaluate(Capture1, 2) == Some(CaptureResult)
  {
    CaptureRenamed1();
    CaptureStep1();
    EvaluateRound(Capture1, CaptureU1, Capture2, 2);
    CaptureFrom2();
  }

  lemma CaptureResultIsWrong()
    ensures !Alpha.AlphaEquivalent(CaptureResult, CaptureExpected)
  {
    assert Alpha.ToNameless(CaptureResult, []) == Alpha.Abs(Alpha.Abs(Alpha.Bound(0)));
    assert Alpha.ToNameless(CaptureExpected, []) == Alpha.Abs(Alpha.Abs(Alpha.Bound(1)));
  }

  /**
   * `eval` as written returns `#v0<y> -> #v1<z> -> v1<z>` on `Capture0`, which is not
   * alpha-equivalent to its normal form `#y -> #z -> y`.
   */
  lemma EvaluationCapturesBoundVariable()
    ensures Evaluate(Capture0, 3) == Some(CaptureResult)
    ensures !Alpha.AlphaEquivalent(CaptureResult, CaptureExpected)
  {
    CaptureRenamed0();
    CaptureStep0();
    EvaluateRound(Capture0, CaptureU0, Capture1, 3);
    CaptureFrom1();
    CaptureResultIsWrong();
  }

  // ---------------------------------------------------------------------------
  // A term without a normal form on which `eval` stops

  /** `#a -> a a` and `#i -> i` with a renamed parameter. */
  function SelfApp(name: string): Ast { RL(name, "a", App(R(name, "a"), R(name, "a"))) }
  function IdI(name: string): Ast { RL(name, "i", R(name, "i")) }

  const Omega := App(L("a", App(V("a"), V("a"))), L("a", App(V("a"), V("a"))))
  const Omega45 := App(SelfApp("v4"), SelfApp("v5"))
  const Omega34 := App(SelfApp("v3"), SelfApp("v4"))
  const Omega23 := App(SelfApp("v2"), SelfApp("v3"))

  /**
   * `Capture0 ((#a -> a a) (#a -> a a)) (#i -> i)`: `Capture0` reduces to `#y -> #z -> y`, which
   * selects the looping `(#a -> a a) (#a -> a a)`, so the term has no normal form. `eval` takes
   * the same first rounds as on `Capture0`, captures in the second, and then selects `#i -> i`.
   */
  const Stops0 := App(App(Capture0, Omega), L("i", V("i")))
  const StopsU0 := App(App(CaptureU0, Omega45), IdI("v6"))
  const Stops1 := App(App(Capture1, Omega45), IdI("v6"))
  const StopsU1 := App(App(CaptureU1, Omega45), IdI("v6"))
  const Stops2 := App(App(Capture2, Omega45), IdI("v6"))
  const StopsU2 := App(App(CaptureU2, Omega34), IdI("v5"))
  const Stops3 := App(App(Capture3, Omega34), IdI("v5"))
  const StopsU3 := App(App(CaptureResult, Omega23), IdI("v4"))
  const Stops4 := App(RL("v1", "z", R("v1", "z")), IdI("v4"))
  const StopsU4 := App(RL("v0", "z", R("v0", "z")), IdI("v1"))

  lemma OmegaRenamed()
    ensures Rename(Omega, 4) == (Omega45, 6)
    ensures Rename(Omega45, 4) == (Omega45, 6)
    ensures Rename(Omega45, 3) == (Omega34, 5)
    ensures Rename(Omega34, 2) == (Omega23, 4)
  {
    GeneratedNames();
    MoreGeneratedNames();
  }

  lemma IdIRenamed()
    ensures Rename(L("i", V("i")), 6) == (IdI("v6"), 7)
    ensures Rename(IdI("v6"), 6) == (IdI("v6"), 7)
    ensures Rename(IdI("v6"), 5) == (IdI("v5"), 6)
    ensures Rename(IdI("v5"), 4) == (IdI("v4"), 5)
    ensures Rename(IdI("v4"), 1) == (IdI("v1"), 2)
  {
    GeneratedNames();
    MoreGeneratedNames();
  }

  lemma StopsRenamed0()
    ensures Uniquified(Stops0) == StopsU0
  {
    CaptureRenamed0();
    assert |Binders(Capture0)| == 4;
    OmegaRenamed();
    IdIRenamed();
  }

  lemma StopsRenamed1()
    ensures Uniquified(Stops1) == StopsU1
  {
    CaptureRenamed1();
    assert |Binders(Capture1)| == 4;
    OmegaRenamed();
    IdIRenamed();
  }

  lemma StopsRenamed2()
    ensures Uniquified(Stops2) == StopsU2
  {
    CaptureRenamed2();
    assert |Binders(Capture2)| == 3;
    OmegaRenamed();
    IdIRenamed();
  }

  lemma StopsRenamed3()
    ensures Uniquified(Stops3) == StopsU3
  {
    CaptureRenamed3();
    assert |Binders(Capture3)| == 2;
    OmegaRenamed();
    IdIRenamed();
  }

  lemma StopsRenamed4()
    ensures Uniquified(Stops4) == StopsU4
    ensures Uniquified(IdI("v1")) == IdI("v0")
  {
    GeneratedNames();
    IdIRenamed();
  }

  /** In the fourth round the captured `#v0<y> -> #v1<z> -> v1<z>` drops the loop and keeps `#i -> i`. */
  lemma StopsStep3()
    ensures Step(StopsU3) == Some(Stops4)
  {
    assert Replace(RL("v1", "z", R("v1", "z")), "v0", Omega23) == RL("v1", "z", R("v1", "z"));
  }

  lemma StopsFrom3()
    ensures Evaluate(Stops3, 2) == Some(IdI("v0"))
  {
    StopsRenamed3();
    StopsStep3();
    EvaluateRound(Stops3, StopsU3, Stops4, 2);
    StopsRenamed4();
    assert Step(StopsU4) == Some(IdI("v1"));
    EvaluateRound(Stops4, StopsU4, IdI("v1"), 1);
    assert Step(IdI("v0")) == None;
    EvaluateLastRound(IdI("v1"), IdI("v0"));
  }

  lemma StopsFrom2()
    ensures Evaluate(Stops2, 3) == Some(IdI("v0"))
  {
    StopsRenamed2();
    CaptureStep2();
    assert Step(StopsU2) == Some(Stops3);
    EvaluateRound(Stops2, StopsU2, Stops3, 3);
    StopsFrom3();
  }

  lemma StopsFrom1()
    ensures Evaluate(Stops1, 4) == Some(IdI("v0"))
  {
    StopsRenamed1();
    CaptureStep1();
    assert Step(StopsU1) == Some(Stops2);
    EvaluateRound(Stops1, StopsU1, Stops2, 4);
    StopsFrom2();
  }

  /**
   * `eval` as written stops on `Stops0`, which has no normal form, after five contractions and
   * returns `#v0<i> -> v0<i>`.
   */
  lemma EvaluationStopsWithoutNormalForm()
    ensures Evaluate(Stops0, 5) == Some(IdI("v0"))
  {
    StopsRenamed0();
    CaptureStep0();
    assert Step(StopsU0) == Some(Stops1);
    EvaluateRound(Stops0, StopsU0, Stops1, 5);
    StopsFrom1();
  }
}
