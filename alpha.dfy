/**
 * Alpha-equivalence through nameless (de Bruijn) terms, and what the renaming pass of
 * src/eval.rs preserves: it yields an alpha-equivalent term if none of the names it hands out is
 * already in the input. It never skips names that are in use, so a name "v<k>" in the input can be
 * captured.
 */
module Alpha {
  import opened Wrappers
  import opened Terms
  import opened Substitution
  import opened Renaming

  /** A bound variable is the number of lambdas between it and its binder; a free one keeps its identifier. */
  datatype Nameless =
    | Bound(index: nat)
    | Free(id: Identifier)
    | Abs(body: Nameless)
    | Apply(func: Nameless, argument: Nameless)

  /** Position of `x` in `env`, innermost binder first. */
  function Lookup(env: seq<string>, x: string): (r: Option<nat>)
    ensures r.None? <==> x !in env
    ensures r.Some? ==> r.value < |env| && env[r.value] == x
  {
    if env == [] then None
    else if env[0] == x then Some(0)
    else match Lookup(env[1..], x)
      case None => None
      case Some(i) => Some(i + 1)
  }

  /** The position found is the first one, so a variable refers to its innermost binder. */
  lemma {:induction false} LookupInnermost(env: seq<string>, x: string)
    ensures Lookup(env, x).Some? ==> forall j :: 0 <= j < Lookup(env, x).value ==> env[j] != x
  {
    if env != [] && env[0] != x {
      LookupInnermost(env[1..], x);
    }
  }

  /** The nameless form of `t` under the enclosing binders `env` (innermost first). */
  function ToNameless(t: Ast, env: seq<string>): Nameless
  {
    match t
    case Var(id) =>
      (match Lookup(env, id.identifier)
       case Some(i) => Bound(i)
       case None => Free(id))
    case Lambda(p, b) => Abs(ToNameless(b, [p.identifier] + env))
    case App(f, a) => Apply(ToNameless(f, env), ToNameless(a, env))
  }

  /** Two terms that differ at most in the names of bound variables. */
  predicate AlphaEquivalent(s: Ast, t: Ast)
  {
    ToNameless(s, []) == ToNameless(t, [])
  }

  function FreeIds(d: Nameless): set<string>
  {
    match d
    case Bound(_) => {}
    case Free(id) => {id.identifier}
    case Abs(b) => FreeIds(b)
    case Apply(f, a) => FreeIds(f) + FreeIds(a)
  }

  // ---------------------------------------------------------------------------
  // Environments

  function Shifted(r: Option<nat>, n: nat): Option<nat>
  {
    match r
    case None => None
    case Some(i) => Some(i + n)
  }

  lemma {:induction false} LookupConcat(inner: seq<string>, outer: seq<string>, x: string)
    ensures Lookup(inner + outer, x) == if x in inner then Lookup(inner, x) else Shifted(Lookup(outer, x), |inner|)
  {
    if inner != [] {
      assert (inner + outer)[0] == inner[0];
      assert (inner + outer)[1..] == inner[1..] + outer;
      assert x in inner <==> x == inner[0] || x in inner[1..];
      LookupConcat(inner[1..], outer, x);
    } else {
      assert inner + outer == outer;
    }
  }

  /** Swapping one entry of the environment for another name changes no lookup of a third name. */
  lemma LookupOtherName(inner: seq<string>, x: string, y: string, outer: seq<string>, z: string)
    requires z != x && z != y
    ensures Lookup(inner + [y] + outer, z) == Lookup(inner + [x] + outer, z)
  {
    var ey, ex := [y] + outer, [x] + outer;
    assert ey[1..] == outer && ex[1..] == outer;
    assert Lookup(ey, z) == Lookup(ex, z);
    assert inner + [y] + outer == inner + ey;
    assert inner + [x] + outer == inner + ex;
    LookupConcat(inner, ey, z);
    LookupConcat(inner, ex, z);
  }

  /** A name missing from `inner` is found at the entry right after it. */
  lemma LookupAfterInner(inner: seq<string>, x: string, outer: seq<string>)
    requires x !in inner
    ensures Lookup(inner + [x] + outer, x) == Some(|inner|)
  {
    LookupConcat(inner, [x] + outer, x);
    assert inner + [x] + outer == inner + ([x] + outer);
  }

  /** Only the positions of the free names of `t` matter. */
  lemma {:induction false} EnvCongruence(t: Ast, e1: seq<string>, e2: seq<string>)
    requires forall x :: x in FreeVars(t) ==> Lookup(e1, x) == Lookup(e2, x)
    ensures ToNameless(t, e1) == ToNameless(t, e2)
  {
    match t
    case Var(_) =>
    case Lambda(p, b) =>
      forall x | x in FreeVars(b)
        ensures Lookup([p.identifier] + e1, x) == Lookup([p.identifier] + e2, x)
      {
        assert ([p.identifier] + e1)[1..] == e1;
        assert ([p.identifier] + e2)[1..] == e2;
      }
      EnvCongruence(b, [p.identifier] + e1, [p.identifier] + e2);
    case App(f, a) =>
      EnvCongruence(f, e1, e2);
      EnvCongruence(a, e1, e2);
  }

  /**
   * Substituting a variable `y` that does not occur in `b` for `x` is the same, namelessly,
   * as binding `y` where `x` was bound.
   */
  lemma {:induction false} ReplaceByUnusedName(b: Ast, x: string, y: Identifier, inner: seq<string>, outer: seq<string>)
    requires y.identifier !in AllNames(b)
    requires x !in inner && y.identifier !in inner
    ensures ToNameless(Replace(b, x, Var(y)), inner + [y.identifier] + outer) == ToNameless(b, inner + [x] + outer)
  {
    match b
    case Var(id) =>
      LookupAfterInner(inner, y.identifier, outer);
      LookupAfterInner(inner, x, outer);
      if id.identifier != x {
        LookupOtherName(inner, x, y.identifier, outer, id.identifier);
      }
    case Lambda(q, c) =>
      if q.identifier == x {
        ShadowedEntry(c, x, y.identifier, inner, outer);
      } else {
        ReplaceByUnusedName(c, x, y, [q.identifier] + inner, outer);
        assert [q.identifier] + (inner + [y.identifier] + outer) == [q.identifier] + inner + [y.identifier] + outer;
        assert [q.identifier] + (inner + [x] + outer) == [q.identifier] + inner + [x] + outer;
      }
    case App(f, a) =>
      ReplaceByUnusedName(f, x, y, inner, outer);
      ReplaceByUnusedName(a, x, y, inner, outer);
  }

  /** Under a binder for `x`, the outer entry for `x` can be renamed to an unused `y`. */
  lemma ShadowedEntry(c: Ast, x: string, y: string, inner: seq<string>, outer: seq<string>)
    requires y !in AllNames(c)
    ensures ToNameless(c, [x] + (inner + [y] + outer)) == ToNameless(c, [x] + (inner + [x] + outer))
  {
    var ey, ex := inner + [y] + outer, inner + [x] + outer;
    FreeVarsInAllNames(c);
    forall z | z in FreeVars(c)
      ensures Lookup([x] + ey, z) == Lookup([x] + ex, z)
    {
      assert ([x] + ey)[0] == x && ([x] + ex)[0] == x;
      if z != x {
        assert ([x] + ey)[1..] == ey;
        assert ([x] + ex)[1..] == ex;
        LookupOtherName(inner, x, y, outer, z);
      }
    }
    EnvCongruence(c, [x] + ey, [x] + ex);
  }

  /**
   * None of the names the pass hands out to the lambdas of `t`, starting at counter value `next`,
   * is already in `t`.
   */
  predicate NoGeneratedNamesFrom(t: Ast, next: nat)
  {
    forall k: nat :: next <= k < next + |Binders(t)| ==> Name(k) !in AllNames(t)
  }

  /** The name a lambda receives is new to its body, and the body keeps the premise. */
  lemma RenamedLambda(p: Identifier, b: Ast, next: nat)
    requires NoGeneratedNamesFrom(Lambda(p, b), next)
    ensures Name(next) !in AllNames(b)
    ensures NoGeneratedNamesFrom(Replace(b, p.identifier, Var(Identifier(Name(next), p.original))), next + 1)
  {
    var b' := Replace(b, p.identifier, Var(Identifier(Name(next), p.original)));
    ReplaceNames(b, p.identifier, Var(Identifier(Name(next), p.original)));
    forall k: nat | next + 1 <= k < next + 1 + |Binders(b')|
      ensures Name(k) !in AllNames(b')
    {
      NameInjective(k, next);
    }
  }

  /**
   * Renaming a lambda's parameter to a name `y` its body does not use, and the body along with
   * it, keeps the nameless form when the renamed body keeps its own.
   */
  lemma RenamedLambdaNameless(p: Identifier, b: Ast, y: string, renamedBody: Ast, env: seq<string>)
    requires y !in AllNames(b)
    requires ToNameless(renamedBody, [y] + env) == ToNameless(Replace(b, p.identifier, Var(Identifier(y, p.original))), [y] + env)
    ensures ToNameless(Lambda(Identifier(y, p.original), renamedBody), env) == ToNameless(Lambda(p, b), env)
  {
    ReplaceByUnusedName(b, p.identifier, Identifier(y, p.original), [], env);
    assert [] + [y] + env == [y] + env;
    assert [] + [p.identifier] + env == [p.identifier] + env;
  }

  /** The renaming pass changes only the names of bound variables, provided it cannot capture. */
  lemma {:induction false} RenamePreservesNameless(t: Ast, next: nat, env: seq<string>)
    requires NoGeneratedNamesFrom(t, next)
    ensures ToNameless(Rename(t, next).0, env) == ToNameless(t, env)
    decreases Size(t)
  {
    match t
    case Var(_) =>
    case Lambda(p, b) =>
      var b' := Replace(b, p.identifier, Var(Identifier(Name(next), p.original)));
      RenamedLambda(p, b, next);
      RenamePreservesNameless(b', next + 1, [Name(next)] + env);
      RenamedLambdaNameless(p, b, Name(next), Rename(b', next + 1).0, env);
    case App(f, a) =>
      RenamePreservesNameless(f, next, env);
      RenamePreservesNameless(a, Rename(f, next).1, env);
  }

  /**
   * When the term holds none of the names "v0" .. "v<n-1>" it hands to its n lambdas,
   * `make_variables_unique` returns an alpha-equivalent term.
   */
  lemma UniquifiedAlphaEquivalent(t: Ast)
    requires NoGeneratedNamesFrom(t, 0)
    ensures AlphaEquivalent(Uniquified(t), t)
  {
    RenamePreservesNameless(t, 0, []);
  }

  lemma {:induction false} FreeIdsOfNameless(t: Ast, env: seq<string>)
    ensures forall x :: x in FreeIds(ToNameless(t, env)) <==> x in FreeVars(t) && x !in env
  {
    match t
    case Var(_) =>
    case Lambda(p, b) =>
      FreeIdsOfNameless(b, [p.identifier] + env);
    case App(f, a) =>
      FreeIdsOfNameless(f, env);
      FreeIdsOfNameless(a, env);
  }

  /** Alpha-equivalent terms have the same free variables. */
  lemma AlphaEquivalentFreeVars(s: Ast, t: Ast)
    requires AlphaEquivalent(s, t)
    ensures FreeVars(s) == FreeVars(t)
  {
    FreeIdsOfNameless(s, []);
    FreeIdsOfNameless(t, []);
    assert FreeVars(s) == FreeIds(ToNameless(s, []));
  }

  /** So on such a term the renaming pass keeps every free variable free. */
  lemma UniquifiedFreeVars(t: Ast)
    requires NoGeneratedNamesFrom(t, 0)
    ensures FreeVars(Uniquified(t)) == FreeVars(t)
  {
    UniquifiedAlphaEquivalent(t);
    AlphaEquivalentFreeVars(Uniquified(t), t);
  }

  /**
   * The pass does not skip names in use: a free "v0" is captured by the first lambda,
   * and the result is not alpha-equivalent to the input.
   */
  lemma UniquifiedCapturesFreeV0()
    ensures var t := Lambda(Id("x"), Var(Id("v0")));
            Uniquified(t) == Lambda(Identifier("v0", "x"), Var(Id("v0"))) &&
            FreeVars(t) == {"v0"} && FreeVars(Uniquified(t)) == {} &&
            !AlphaEquivalent(Uniquified(t), t)
  {
    var t := Lambda(Id("x"), Var(Id("v0")));
    assert Name(0) == "v0";
    assert Replace(Var(Id("v0")), "x", Var(Identifier("v0", "x"))) == Var(Id("v0"));
    assert ToNameless(Uniquified(t), []) == Abs(Bound(0));
    assert ToNameless(t, []) == Abs(Free(Id("v0")));
  }

  /** A name "v<k>" the pass does not hand out is harmless: `#x -> x v5` is renamed alpha-equivalently. */
  lemma UniquifiedKeepsUnusedGeneratedName()
    ensures var t := Lambda(Id("x"), App(Var(Id("x")), Var(Id("v5"))));
            Uniquified(t) == Lambda(Identifier("v0", "x"), App(Var(Identifier("v0", "x")), Var(Id("v5")))) &&
            AlphaEquivalent(Uniquified(t), t)
  {
    var t := Lambda(Id("x"), App(Var(Id("x")), Var(Id("v5"))));
    assert Name(0) == "v0";
    assert |Binders(t)| == 1;
    UniquifiedAlphaEquivalent(t);
  }
}
