/** `Ast::replace` (src/eval.rs): plain substitution of a term for the free occurrences of a name. */
module Substitution {
  import opened Wrappers
  import opened Terms

  /**
   * Replaces the occurrences of `v` that no enclosing lambda rebinds by `replacement`.
   * A lambda whose parameter is `v` stops the descent. Nothing renames the binders of `t`,
   * so free variables of `replacement` can be captured.
   */
  function Replace(t: Ast, v: string, replacement: Ast): (r: Ast)
    // substituting a variable keeps the tree, and hence the size, and the binders
    ensures replacement.Var? ==> Skeleton(r) == Skeleton(t) && Size(r) == Size(t) && Binders(r) == Binders(t)
  {
    match t
    case Var(id) =>
      if id.identifier == v then replacement else t
    case Lambda(p, b) =>
      if p.identifier == v then t else Lambda(p, Replace(b, v, replacement))
    case App(f, a) =>
      App(Replace(f, v, replacement), Replace(a, v, replacement))
  }

  /** A term in which `v` is not free comes back unchanged; this covers the lambda whose parameter is `v`. */
  lemma {:induction false} ReplaceNotFree(t: Ast, v: string, replacement: Ast)
    requires v !in FreeVars(t)
    ensures Replace(t, v, replacement) == t
  {
    match t
    case Var(_) =>
    case Lambda(p, b) =>
      if p.identifier != v { ReplaceNotFree(b, v, replacement); }
    case App(f, a) =>
      ReplaceNotFree(f, v, replacement);
      ReplaceNotFree(a, v, replacement);
  }

  /** The other free names survive, and no free name appears that neither side had. */
  lemma {:induction false} ReplaceFreeVars(t: Ast, v: string, replacement: Ast)
    ensures FreeVars(t) - {v} <= FreeVars(Replace(t, v, replacement))
    ensures FreeVars(Replace(t, v, replacement)) <= (FreeVars(t) - {v}) + FreeVars(replacement)
  {
    match t
    case Var(_) =>
    case Lambda(p, b) =>
      if p.identifier != v { ReplaceFreeVars(b, v, replacement); }
    case App(f, a) =>
      ReplaceFreeVars(f, v, replacement);
      ReplaceFreeVars(a, v, replacement);
  }

  lemma {:induction false} ReplaceNames(t: Ast, v: string, replacement: Ast)
    ensures AllNames(Replace(t, v, replacement)) <= AllNames(t) + AllNames(replacement)
  {
    match t
    case Var(_) =>
    case Lambda(p, b) =>
      if p.identifier != v { ReplaceNames(b, v, replacement); }
    case App(f, a) =>
      ReplaceNames(f, v, replacement);
      ReplaceNames(a, v, replacement);
  }

  /** The names `t` binds anywhere, at any depth. */
  function BinderNames(t: Ast): set<string>
  {
    match t
    case Var(_) => {}
    case Lambda(p, b) => {p.identifier} + BinderNames(b)
    case App(f, a) => BinderNames(f) + BinderNames(a)
  }

  /**
   * When no binder of `t` captures a free name of `replacement` and `v` does occur free,
   * the free names of the result are exactly those of `t` without `v`, plus those of `replacement`.
   */
  lemma {:induction false} ReplaceWithoutCapture(t: Ast, v: string, replacement: Ast)
    requires BinderNames(t) !! FreeVars(replacement)
    requires v in FreeVars(t)
    ensures FreeVars(Replace(t, v, replacement)) == (FreeVars(t) - {v}) + FreeVars(replacement)
  {
    match t
    case Var(_) =>
    case Lambda(p, b) =>
      ReplaceWithoutCapture(b, v, replacement);
    case App(f, a) =>
      if v in FreeVars(f) { ReplaceWithoutCapture(f, v, replacement); } else { ReplaceNotFree(f, v, replacement); }
      if v in FreeVars(a) { ReplaceWithoutCapture(a, v, replacement); } else { ReplaceNotFree(a, v, replacement); }
  }

  /** Without the precondition above a free name of the replacement can be captured. */
  lemma ReplaceCanCapture()
    ensures var t := Lambda(Id("y"), Var(Id("x")));
            Replace(t, "x", Var(Id("y"))) == Lambda(Id("y"), Var(Id("y"))) &&
            FreeVars(Replace(t, "x", Var(Id("y")))) == {}
  {
  }
}
