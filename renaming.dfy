/**
 * `Ast::make_variables_unique` (src/eval.rs): gives every lambda parameter a new name
 * "v0", "v1", ... in pre-order, counting from 0 on every call, and rewrites the body through
 * `Replace`. The generated names are not checked against the names already in the term.
 */
module Renaming {
  import opened Wrappers
  import opened Terms
  import opened Substitution
  import opened Reduction

  /**
   * The renaming pass as a value: the renamed term and the counter after it.
   * `next` is the counter when the pass reaches `t`.
   */
  function Rename(t: Ast, next: nat): (r: (Ast, nat))
    ensures r.1 == next + |Binders(t)|
    ensures Skeleton(r.0) == Skeleton(t)
    decreases Size(t)
  {
    match t
    case Var(_) => (t, next)
    case Lambda(p, b) =>
      var renamed := Identifier(Name(next), p.original);
      var body := Rename(Replace(b, p.identifier, Var(renamed)), next + 1);
      (Lambda(renamed, body.0), body.1)
    case App(f, a) =>
      var func := Rename(f, next);
      var argument := Rename(a, func.1);
      (App(func.0, argument.0), argument.1)
  }

  lemma {:induction false} RenameBindersLength(t: Ast, next: nat)
    ensures |Binders(Rename(t, next).0)| == |Binders(t)|
    decreases Size(t)
  {
    match t
    case Var(_) =>
    case Lambda(p, b) =>
      var renamed := Identifier(Name(next), p.original);
      RenameBindersLength(Replace(b, p.identifier, Var(renamed)), next + 1);
    case App(f, a) =>
      RenameBindersLength(f, next);
      RenameBindersLength(a, Rename(f, next).1);
  }

  /** The i-th parameter in pre-order is called Name(next + i) and keeps its original name. */
  lemma {:induction false} RenameBinderAt(t: Ast, next: nat, i: nat)
    requires i < |Binders(t)|
    ensures i < |Binders(Rename(t, next).0)|
    ensures Binders(Rename(t, next).0)[i] == Identifier(Name(next + i), Binders(t)[i].original)
    decreases Size(t)
  {
    RenameBindersLength(t, next);
    match t
    case Lambda(p, b) =>
      var renamed := Identifier(Name(next), p.original);
      var b' := Replace(b, p.identifier, Var(renamed));
      var rb := Rename(b', next + 1).0;
      assert Rename(t, next).0 == Lambda(renamed, rb);
      if i > 0 {
        RenameBinderAt(b', next + 1, i - 1);
        assert Binders(t)[i] == Binders(b)[i - 1] == Binders(b')[i - 1];
        assert Binders(Lambda(renamed, rb))[i] == Binders(rb)[i - 1];
      }
    case App(f, a) =>
      var nf := |Binders(f)|;
      var rf := Rename(f, next);
      var ra := Rename(a, rf.1);
      assert Rename(t, next).0 == App(rf.0, ra.0);
      RenameBindersLength(f, next);
      if i < nf {
        RenameBinderAt(f, next, i);
        assert Binders(t)[i] == Binders(f)[i];
        assert Binders(App(rf.0, ra.0))[i] == Binders(rf.0)[i];
      } else {
        RenameBinderAt(a, rf.1, i - nf);
        assert Binders(t)[i] == Binders(a)[i - nf];
        assert Binders(App(rf.0, ra.0))[i] == Binders(ra.0)[i - nf];
      }
  }

  /** The k-th parameter in pre-order is called Name(next + k) and keeps its original name. */
  lemma RenameBinders(t: Ast, next: nat)
    ensures |Binders(Rename(t, next).0)| == |Binders(t)|
    ensures forall i :: 0 <= i < |Binders(t)| ==>
              Binders(Rename(t, next).0)[i] == Identifier(Name(next + i), Binders(t)[i].original)
  {
    RenameBindersLength(t, next);
    forall i | 0 <= i < |Binders(t)|
      ensures Binders(Rename(t, next).0)[i] == Identifier(Name(next + i), Binders(t)[i].original)
    {
      RenameBinderAt(t, next, i);
    }
  }

  /** What one call of `make_variables_unique` returns. */
  function Uniquified(t: Ast): Ast
  {
    Rename(t, 0).0
  }

  /** A term as the renaming pass leaves it: its k-th parameter in pre-order is called "v<k>". */
  predicate IsRenamed(t: Ast)
  {
    forall i :: 0 <= i < |Binders(t)| ==> Binders(t)[i].identifier == Name(i)
  }

  lemma UniquifiedIsRenamed(t: Ast)
    ensures IsRenamed(Uniquified(t))
    ensures Skeleton(Uniquified(t)) == Skeleton(t)
  {
    RenameBinders(t, 0);
  }

  /** After the pass no two lambdas of the term share a parameter name. */
  lemma UniquifiedBindersDistinct(t: Ast)
    ensures var bs := Binders(Uniquified(t));
            forall i, j :: 0 <= i < j < |bs| ==> bs[i].identifier != bs[j].identifier
  {
    var bs := Binders(Uniquified(t));
    RenameBinders(t, 0);
    forall i, j | 0 <= i < j < |bs|
      ensures bs[i].identifier != bs[j].identifier
    {
      NameInjective(i, j);
    }
  }

  /**
   * A free variable stays free, under its own name, unless the pass hands that very name to one
   * of the lambdas it renames.
   */
  lemma {:induction false} RenameKeepsFreeVar(t: Ast, next: nat, x: string)
    requires x in FreeVars(t)
    requires forall k :: next <= k < next + |Binders(t)| ==> x != Name(k)
    ensures x in FreeVars(Rename(t, next).0)
    decreases Size(t)
  {
    match t
    case Var(_) =>
    case Lambda(p, b) =>
      var renamed := Identifier(Name(next), p.original);
      var b' := Replace(b, p.identifier, Var(renamed));
      ReplaceFreeVars(b, p.identifier, Var(renamed));
      RenameKeepsFreeVar(b', next + 1, x);
      assert x != Name(next);
    case App(f, a) =>
      if x in FreeVars(f) {
        RenameKeepsFreeVar(f, next, x);
      } else {
        RenameKeepsFreeVar(a, Rename(f, next).1, x);
      }
  }

  /** `replace` leaves alone a variable node of another name, and every lambda above it. */
  lemma {:induction false} ReplaceKeepsVarAt(t: Ast, v: string, replacement: Ast, path: Path, id: Identifier)
    requires Subterm(t, path) == Some(Var(id)) && id.identifier != v
    ensures Subterm(Replace(t, v, replacement), path) == Some(Var(id))
    ensures BoundOn(Replace(t, v, replacement), path) == BoundOn(t, path)
  {
    if path != [] {
      var rest := path[1..];
      match (t, path[0])
      case (App(f, a), FuncSide) =>
        ReplaceKeepsVarAt(f, v, replacement, rest, id);
      case (App(f, a), ArgumentSide) =>
        ReplaceKeepsVarAt(a, v, replacement, rest, id);
      case (Lambda(p, b), BodySide) =>
        if p.identifier != v {
          ReplaceKeepsVarAt(b, v, replacement, rest, id);
        }
    }
  }

  /**
   * A variable node that no lambda above it binds is left exactly as it is, name and original
   * alike, even where one of the names handed out makes it bound.
   */
  lemma {:induction false} RenameKeepsFreeNode(t: Ast, next: nat, path: Path, id: Identifier)
    requires Subterm(t, path) == Some(Var(id)) && id.identifier !in BoundOn(t, path)
    ensures Subterm(Rename(t, next).0, path) == Some(Var(id))
    decreases Size(t)
  {
    if path != [] {
      var rest := path[1..];
      match (t, path[0])
      case (App(f, a), FuncSide) =>
        RenameKeepsFreeNode(f, next, rest, id);
      case (App(f, a), ArgumentSide) =>
        RenameKeepsFreeNode(a, Rename(f, next).1, rest, id);
      case (Lambda(p, b), BodySide) =>
        var renamed := Identifier(Name(next), p.original);
        ReplaceKeepsVarAt(b, p.identifier, Var(renamed), rest, id);
        RenameKeepsFreeNode(Replace(b, p.identifier, Var(renamed)), next + 1, rest, id);
    }
  }

  /** The only names the pass adds are the ones it generates. */
  lemma {:induction false} RenameNames(t: Ast, next: nat)
    ensures AllNames(Rename(t, next).0) <= AllNames(t) + set k | next <= k < next + |Binders(t)| :: Name(k)
    decreases Size(t)
  {
    match t
    case Var(_) =>
    case Lambda(p, b) =>
      var renamed := Identifier(Name(next), p.original);
      var b' := Replace(b, p.identifier, Var(renamed));
      ReplaceNames(b, p.identifier, Var(renamed));
      RenameNames(b', next + 1);
    case App(f, a) =>
      RenameNames(f, next);
      RenameNames(a, Rename(f, next).1);
  }

  // ---------------------------------------------------------------------------
  // The imperative form of the pass: a counter object threaded through `inner`.

  /** The name generator `AllVariables`: a counter that yields "v<counter>" and moves on. */
  class AllVariables {
    var counter: nat

    constructor (start: nat)
      ensures counter == start
    {
      counter := start;
    }

    method Next() returns (name: string)
      modifies this
      ensures name == Name(old(counter))
      ensures counter == old(counter) + 1
    {
      name := "v" + Show(counter);
      counter := counter + 1;
    }
  }

  /** `inner`: renames `ast` while advancing the shared counter. */
  method Inner(variables: AllVariables, ast: Ast) returns (r: Ast)
    modifies variables
    ensures (r, variables.counter) == Rename(ast, old(variables.counter))
    decreases Size(ast)
  {
    match ast
    case Var(_) =>
      r := ast;
    case Lambda(parameter, body) =>
      var newVariable := variables.Next();
      var newIdentifier := Identifier(newVariable, parameter.original);
      var newBody := Inner(variables, Replace(body, parameter.identifier, Var(newIdentifier)));
      r := Lambda(newIdentifier, newBody);
    case App(func, argument) =>
      var newFunction := Inner(variables, func);
      var newArgument := Inner(variables, argument);
      r := App(newFunction, newArgument);
  }

  method MakeVariablesUnique(ast: Ast) returns (r: Ast)
    ensures r == Uniquified(ast)
    ensures IsRenamed(r) && Skeleton(r) == Skeleton(ast)
  {
    var variables := new AllVariables(0);
    r := Inner(variables, ast);
    UniquifiedIsRenamed(ast);
  }
}
