/**
 * `Ast::step` (src/eval.rs): one beta-contraction in normal order. The reference it is proved
 * against lists the positions of all redexes in leftmost-outermost order and contracts the first.
 */
module Reduction {
  import opened Wrappers
  import opened Terms
  import opened Substitution

  /** Which child to descend into. */
  datatype Dir = FuncSide | ArgumentSide | BodySide

  /** A position in a term: the directions taken from the root. */
  type Path = seq<Dir>

  /** A redex is an application of a lambda. */
  predicate IsRedex(t: Ast)
  {
    t.App? && t.func.Lambda?
  }

  function Subterm(t: Ast, path: Path): Option<Ast>
  {
    if path == [] then Some(t)
    else match (t, path[0])
      case (App(f, _), FuncSide) => Subterm(f, path[1..])
      case (App(_, a), ArgumentSide) => Subterm(a, path[1..])
      case (Lambda(_, b), BodySide) => Subterm(b, path[1..])
      case _ => None
  }

  /** The parameter names of the lambdas that `path` passes through, the ones in scope at its end. */
  function BoundOn(t: Ast, path: Path): set<string>
  {
    if path == [] then {}
    else match (t, path[0])
      case (App(f, _), FuncSide) => BoundOn(f, path[1..])
      case (App(_, a), ArgumentSide) => BoundOn(a, path[1..])
      case (Lambda(p, b), BodySide) => {p.identifier} + BoundOn(b, path[1..])
      case _ => {}
  }

  predicate IsRedexAt(t: Ast, path: Path)
  {
    var s := Subterm(t, path);
    s.Some? && IsRedex(s.value)
  }

  function Under(d: Dir, paths: seq<Path>): (r: seq<Path>)
    ensures |r| == |paths|
    ensures forall i :: 0 <= i < |paths| ==> r[i] == [d] + paths[i]
  {
    seq(|paths|, i requires 0 <= i < |paths| => [d] + paths[i])
  }

  /**
   * The positions of all redexes, in pre-order: an application before its function, the
   * function before the argument. Pre-order is the leftmost-outermost order (see `Before`).
   */
  function RedexPaths(t: Ast): seq<Path>
  {
    match t
    case Var(_) => []
    case Lambda(_, b) => Under(BodySide, RedexPaths(b))
    case App(f, a) =>
      (if f.Lambda? then [[]] else []) + Under(FuncSide, RedexPaths(f)) + Under(ArgumentSide, RedexPaths(a))
  }

  /** Beta-contraction of `(#p -> b) a` into `b` with `a` for `p`. */
  function Contract(redex: Ast): Ast
    requires IsRedex(redex)
  {
    Replace(redex.func.body, redex.func.parameter.identifier, redex.argument)
  }

  /** Contracts the redex at `path`; a path that leads to no redex leaves the term unchanged. */
  function ContractAt(t: Ast, path: Path): Ast
  {
    if path == [] then (if IsRedex(t) then Contract(t) else t)
    else match (t, path[0])
      case (App(f, a), FuncSide) => App(ContractAt(f, path[1..]), a)
      case (App(f, a), ArgumentSide) => App(f, ContractAt(a, path[1..]))
      case (Lambda(p, b), BodySide) => Lambda(p, ContractAt(b, path[1..]))
      case _ => t
  }

  /**
   * `step`: an application of a lambda is contracted on the spot; any other application steps
   * its function and, only when that has no redex, its argument; a lambda steps its body.
   */
  function Step(t: Ast): Option<Ast>
  {
    match t
    case App(f, a) =>
      if f.Lambda? then Some(Replace(f.body, f.parameter.identifier, a))
      else (match Step(f)
        case Some(f') => Some(App(f', a))
        case None =>
          match Step(a)
          case Some(a') => Some(App(f, a'))
          case None => None)
    case Lambda(p, b) =>
      (match Step(b)
       case Some(b') => Some(Lambda(p, b'))
       case None => None)
    case Var(_) => None
  }

  /** `step` is `None` exactly when there is no redex, and otherwise contracts the first redex in pre-order. */
  lemma {:induction false} StepContractsFirstRedex(t: Ast)
    ensures Step(t) == if RedexPaths(t) == [] then None else Some(ContractAt(t, RedexPaths(t)[0]))
  {
    match t
    case Var(_) =>
    case Lambda(p, b) =>
      StepContractsFirstRedex(b);
      if RedexPaths(b) != [] {
        var q := RedexPaths(b)[0];
        assert RedexPaths(t)[0] == [BodySide] + q;
        assert ([BodySide] + q)[1..] == q;
        assert ContractAt(t, [BodySide] + q) == Lambda(p, ContractAt(b, q));
      }
    case App(f, a) =>
      if !f.Lambda? {
        StepContractsFirstRedex(f);
        StepContractsFirstRedex(a);
        if RedexPaths(f) != [] {
          var q := RedexPaths(f)[0];
          assert RedexPaths(t)[0] == [FuncSide] + q;
          assert ([FuncSide] + q)[1..] == q;
          assert ContractAt(t, [FuncSide] + q) == App(ContractAt(f, q), a);
        } else if RedexPaths(a) != [] {
          var q := RedexPaths(a)[0];
          assert RedexPaths(t) == Under(ArgumentSide, RedexPaths(a));
          assert RedexPaths(t)[0] == [ArgumentSide] + q;
          assert ([ArgumentSide] + q)[1..] == q;
          assert ContractAt(t, [ArgumentSide] + q) == App(f, ContractAt(a, q));
        }
      }
  }

  // ---------------------------------------------------------------------------
  // The reference enumeration is exact

  /** Every listed position holds a redex. */
  lemma {:induction false} RedexPathsSound(t: Ast, i: nat)
    requires i < |RedexPaths(t)|
    ensures IsRedexAt(t, RedexPaths(t)[i])
  {
    match t
    case Lambda(_, b) =>
      RedexPathsSound(b, i);
      assert ([BodySide] + RedexPaths(b)[i])[1..] == RedexPaths(b)[i];
    case App(f, a) =>
      var k := if f.Lambda? then 1 else 0;
      var nf := |RedexPaths(f)|;
      var head: seq<Path> := if f.Lambda? then [[]] else [];
      assert RedexPaths(t) == head + Under(FuncSide, RedexPaths(f)) + Under(ArgumentSide, RedexPaths(a));
      if i < k {
      } else if i < k + nf {
        RedexPathsSound(f, i - k);
        assert RedexPaths(t)[i] == [FuncSide] + RedexPaths(f)[i - k];
        assert ([FuncSide] + RedexPaths(f)[i - k])[1..] == RedexPaths(f)[i - k];
      } else {
        RedexPathsSound(a, i - k - nf);
        assert RedexPaths(t)[i] == [ArgumentSide] + RedexPaths(a)[i - k - nf];
        assert ([ArgumentSide] + RedexPaths(a)[i - k - nf])[1..] == RedexPaths(a)[i - k - nf];
      }
  }

  lemma UnderHas(d: Dir, paths: seq<Path>, path: Path)
    requires path in paths
    ensures [d] + path in Under(d, paths)
  {
    var j :| 0 <= j < |paths| && paths[j] == path;
    assert Under(d, paths)[j] == [d] + path;
  }

  /** Every redex is listed. */
  lemma {:induction false} RedexPathsComplete(t: Ast, path: Path)
    requires IsRedexAt(t, path)
    ensures path in RedexPaths(t)
  {
    if path != [] {
      var rest := path[1..];
      assert path == [path[0]] + rest;
      match (t, path[0])
      case (App(f, a), FuncSide) =>
        RedexPathsComplete(f, rest);
        UnderHas(FuncSide, RedexPaths(f), rest);
      case (App(f, a), ArgumentSide) =>
        RedexPathsComplete(a, rest);
        UnderHas(ArgumentSide, RedexPaths(a), rest);
      case (Lambda(_, b), BodySide) =>
        RedexPathsComplete(b, rest);
        UnderHas(BodySide, RedexPaths(b), rest);
    }
  }

  /** `step` returns `None` exactly on terms without a redex anywhere. */
  lemma StepNoneIffNormal(t: Ast)
    ensures Step(t).None? <==> forall path :: !IsRedexAt(t, path)
  {
    StepContractsFirstRedex(t);
    if RedexPaths(t) != [] {
      RedexPathsSound(t, 0);
    }
    forall path | IsRedexAt(t, path)
      ensures RedexPaths(t) != []
    {
      RedexPathsComplete(t, path);
    }
  }

  // ---------------------------------------------------------------------------
  // Leftmost-outermost order

  /**
   * `p` comes before `q` in normal order: `p` encloses `q`, or they part where `p` goes into
   * the function and `q` into the argument of the same application.
   */
  predicate Before(p: Path, q: Path)
  {
    if p == [] then q != []
    else if q == [] then false
    else if p[0] == q[0] then Before(p[1..], q[1..])
    else p[0] == FuncSide && q[0] == ArgumentSide
  }

  /** The redex `step` contracts comes before every other redex of the term. */
  lemma {:induction false} FirstRedexBeforeOthers(t: Ast, q: Path)
    requires IsRedexAt(t, q)
    ensures RedexPaths(t) != []
    ensures q == RedexPaths(t)[0] || Before(RedexPaths(t)[0], q)
  {
    RedexPathsComplete(t, q);
    var p := RedexPaths(t)[0];
    if q != [] && p != [] {
      var rest := q[1..];
      match (t, q[0])
      case (App(f, a), FuncSide) =>
        FirstRedexBeforeOthers(f, rest);
        assert p == [FuncSide] + RedexPaths(f)[0];
        assert p[1..] == RedexPaths(f)[0];
      case (App(f, a), ArgumentSide) =>
        if RedexPaths(f) == [] {
          FirstRedexBeforeOthers(a, rest);
          assert p == [ArgumentSide] + RedexPaths(a)[0];
          assert p[1..] == RedexPaths(a)[0];
          assert q == [ArgumentSide] + rest;
        } else {
          assert p == [FuncSide] + RedexPaths(f)[0];
        }
      case (Lambda(_, b), BodySide) =>
        FirstRedexBeforeOthers(b, rest);
        assert p == [BodySide] + RedexPaths(b)[0];
        assert p[1..] == RedexPaths(b)[0];
        assert q == [BodySide] + rest;
    }
  }

  /**
   * Normal order: whenever the term has a redex, `step` contracts a redex that is that one
   * or comes before it.
   */
  lemma StepIsNormalOrder(t: Ast, q: Path)
    requires IsRedexAt(t, q)
    ensures Step(t).Some? && RedexPaths(t) != []
    ensures var p := RedexPaths(t)[0];
            IsRedexAt(t, p) && Step(t).value == ContractAt(t, p) && (p == q || Before(p, q))
  {
    StepContractsFirstRedex(t);
    FirstRedexBeforeOthers(t, q);
    RedexPathsSound(t, 0);
  }

  /** Whether a term is reducible depends only on its tree, not on its names. */
  lemma {:induction false} RedexPathsOfSkeleton(s: Ast, t: Ast)
    requires Skeleton(s) == Skeleton(t)
    ensures RedexPaths(s) == RedexPaths(t)
  {
    match s
    case Var(_) =>
    case Lambda(_, b) =>
      RedexPathsOfSkeleton(b, t.body);
    case App(f, a) =>
      RedexPathsOfSkeleton(f, t.func);
      RedexPathsOfSkeleton(a, t.argument);
  }
}
