# A normal-order lambda-calculus evaluator, modelled in Dafny

The repository is an evaluator for the untyped lambda calculus. `src/eval.rs` holds its reduction
engine, which has four parts:

- `replace` is plain substitution. It does not avoid capture, and a lambda that rebinds the name stops the descent.
- `make_variables_unique` is an alpha-renaming pass. It renames every lambda parameter to `v0`, `v1`, ... in
  pre-order, and each parameter keeps the name the user wrote in its `original` field.
- `step` contracts one redex in normal (leftmost-outermost) order.
- `eval` repeats "rename, then step" until `step` finds no redex.

`src/main.rs` holds `pp`, a renderer for an older term type whose applications are flat chains.

The model keeps the form of the code:

- `replace`, `step` and `pp` are pure recursive functions in the source, and stay functions here.
- `make_variables_unique` threads one mutable counter through the recursive `inner`. It becomes a class
  `AllVariables` with a `counter` field and a recursive method `Inner` that modifies it. `Inner` is
  proved against the pure function `Rename`.
- `eval`'s `while cont` loop is a method `Eval` with a loop. It is proved against the function
  `Evaluate`.

| file | module | contents |
|---|---|---|
| wrappers.dfy | Wrappers | `Option` |
| terms.dfy | Terms | the `Identifier`/`Ast` of `src/eval.rs`, the generated names `v<n>`, free variables, binders, tree shape |
| substitution.dfy | Substitution | `replace` |
| renaming.dfy | Renaming | `make_variables_unique`, `AllVariables`, `inner` |
| alpha.dfy | Alpha | nameless (de Bruijn) terms; when the renaming pass is an alpha-conversion |
| reduction.dfy | Reduction | `step` and the leftmost-outermost redex order it follows |
| evaluation.dfy | Evaluation | `eval` |
| eval_examples.dfy | EvalExamples | the expected results of the tests in `src/eval.rs`, and a term on which `eval` captures a variable |
| fresh_renaming.dfy | FreshRenaming | a renaming pass that skips names in use, and `eval` with it in place |
| pretty.dfy | Pretty | `pp` of `src/main.rs` and its tests |

Some things are inferred, and some of the code differs from what the evaluator evidently intends:

- `src/eval.rs` uses an `Ast` with `Var`/`Lambda`/`App` and an `Identifier` with `identifier`/`original`, but
  their definitions are not part of this model. The types here are read off the constructors that
  `src/eval.rs` uses. `App`'s first field is called `func`, because `function` is reserved in Dafny.
- A name as the user wrote it is taken to have `identifier == original` (`Terms.Id`).
- A capture-free renaming pass would skip candidate names already used in the term. The code does
  not skip them: it counts from `v0` on every call. The model follows the code. So alpha-equivalence
  is proved for terms that hold none of the names `v0` .. `v<n-1>` the pass hands to their `n` lambdas
  (`Alpha.UniquifiedAlphaEquivalent`). `Alpha.UniquifiedCapturesFreeV0` shows a term on which the pass
  captures a free variable. Because `eval` renames its own output, which holds such names, `eval` can
  capture on terms without any name `v<n>` (see "## Findings"). `FreshRenaming` models the pass
  that skips used names.
- The renderer that parenthesises only where needed and annotates renamed names as `v0<x>` belongs to
  the `Identifier`-based terms. `pp` in `src/main.rs` wraps every chain element in parentheses and has
  no annotations. The model follows `pp`.

## Model

| member | source | states |
|---|---|---|
| Substitution.Replace | src/eval.rs:103-127 | substituting a variable for a name keeps the tree shape, the size and the list of binders of the term |
| Substitution.ReplaceNotFree | src/eval.rs:103-127 | a term in which the name is not free comes back unchanged; this includes a variable with another name (105-111) and a lambda whose parameter is the name (112-114) |
| Substitution.ReplaceFreeVars | src/eval.rs:103-127 | every other free name stays free, and every free name of the result was free in the term (other than the name itself) or in the replacement |
| Substitution.ReplaceNames | src/eval.rs:103-127 | the result contains no name that is in neither the term nor the replacement |
| Substitution.ReplaceWithoutCapture | src/eval.rs:103-127 | when no binder of the term captures a free name of the replacement and the name occurs free, the free names of the result are exactly those of the term without the name, plus those of the replacement |
| Substitution.ReplaceCanCapture | src/eval.rs:112-121 | the substitution does not rename binders, so `#y -> x` with `y` for `x` becomes the closed term `#y -> y` |
| Terms.NameInjective | src/eval.rs:26 | two counter values give the same name `v<n>` exactly when they are equal |
| Renaming.Rename | src/eval.rs:34-68 | the pass advances the counter by exactly the number of lambdas and keeps the tree shape |
| Renaming.RenameBinders | src/eval.rs:37-58 | the k-th lambda in pre-order (a lambda before its body, a function before its argument) gets the name `v<start+k>` and keeps its `original` |
| Renaming.ReplaceKeepsVarAt | src/eval.rs:103-127 | `replace` leaves a variable node of another name where it is, and keeps every lambda above it |
| Renaming.RenameKeepsFreeNode | src/eval.rs:36 | a variable node that no lambda above it binds comes out of the pass unchanged, name and original alike, even where a handed-out name now binds it |
| Renaming.RenameKeepsFreeVar | src/eval.rs:36 | a free variable stays free under its own name unless the pass hands that name to one of its lambdas |
| Renaming.RenameNames | src/eval.rs:40-52 | the only names the pass adds are the names it generates |
| Renaming.UniquifiedIsRenamed | src/eval.rs:19-70 | after `make_variables_unique` the k-th parameter is named `v<k>`, counting from 0, and the tree shape is unchanged |
| Renaming.UniquifiedBindersDistinct | src/eval.rs:19-70 | after `make_variables_unique` no two lambdas share a parameter name |
| Renaming.AllVariables.constructor | src/eval.rs:69 | the counter starts at the given value (`AllVariables(0)`) |
| Renaming.AllVariables.Next | src/eval.rs:23-29 | yields `v<counter>` and increments the counter by one |
| Renaming.Inner | src/eval.rs:34-68 | the renamed term and the counter afterwards are exactly those of the pure pass from the counter's old value |
| Renaming.MakeVariablesUnique | src/eval.rs:19-70 | returns the pure pass from counter 0; its k-th parameter is `v<k>`; its tree shape is the input's |
| Alpha.RenamePreservesNameless | src/eval.rs:34-68 | if the term contains none of the names the pass hands to its lambdas from the start counter on, renaming changes no variable's binding: the nameless form is unchanged |
| Alpha.UniquifiedAlphaEquivalent | src/eval.rs:19-70 | on a term holding none of the names `v0` .. `v<n-1>` it hands to the term's `n` lambdas, `make_variables_unique` returns an alpha-equivalent term |
| Alpha.UniquifiedFreeVars | src/eval.rs:19-70 | on such a term the free variables are the same before and after |
| Alpha.UniquifiedCapturesFreeV0 | src/eval.rs:26-27 | names are not checked against the term: `#x -> v0` becomes `#v0<x> -> v0`, which is closed and not alpha-equivalent to the input |
| Alpha.UniquifiedKeepsUnusedGeneratedName | src/eval.rs:19-70 | a name `v<k>` the pass does not hand out is harmless: `#x -> x v5` becomes the alpha-equivalent `#v0<x> -> v0<x> v5` |
| Reduction.StepContractsFirstRedex | src/eval.rs:72-101 | `step` is `None` exactly when the term has no redex; otherwise it contracts the first redex in pre-order |
| Reduction.RedexPathsSound | src/eval.rs:72-101 | every position in the redex enumeration holds an application of a lambda |
| Reduction.RedexPathsComplete | src/eval.rs:72-101 | every application of a lambda, at any position, is in the enumeration |
| Reduction.StepNoneIffNormal | src/eval.rs:72-101 | `step` returns `None` if and only if no subterm is an application of a lambda |
| Reduction.FirstRedexBeforeOthers | src/eval.rs:74-90 | the first enumerated redex is every other redex or comes before it in leftmost-outermost order |
| Reduction.StepIsNormalOrder | src/eval.rs:74-90 | when a term has a redex, `step` contracts a redex that is that one or encloses it or lies in a function part to its left |
| Reduction.RedexPathsOfSkeleton | src/eval.rs:72-101 | the redex positions depend only on the tree shape, not on names |
| Evaluation.Evaluate | src/eval.rs:4-17 | a result is the output of a renaming pass (k-th parameter `v<k>`) on which `step` returns `None` |
| Evaluation.Eval | src/eval.rs:4-17 | the loop returns what `Evaluate` describes, and hence a renamed term with no redex |
| Evaluation.EvaluateMoreFuel | src/eval.rs:4-17 | once evaluation stops within some bound, any larger bound gives the same result |
| Evaluation.EvaluateResultIsNormal | src/eval.rs:4-17 | renaming the result once more leaves no redex, so evaluating the result stops at once |
| EvalExamples.GeneratedNames | src/eval.rs:26 | the first generated names are "v0" to "v4" |
| EvalExamples.EvaluatesIdentityFunction | src/eval.rs:134-137 | `(#x -> x) y` evaluates to `y` |
| EvalExamples.TerminatesOnFreeVariableApplications | src/eval.rs:151-154 | `a b` evaluates to itself without a step |
| EvalExamples.MakesAllVariablesUnique | src/eval.rs:168-175 | `(#x -> #y -> x y) (#x -> x)` renames to `(#v0<x> -> #v1<y> -> v0<x> v1<y>) (#v2<x> -> v2<x>)` |
| EvalExamples.ProperAlphaConversion | src/eval.rs:183-190 | `#clashing -> (#x -> #clashing -> clashing x) clashing` evaluates to `#v0<clashing> -> #v1<clashing> -> v1<clashing> v0<clashing>` |
| EvalExamples.ImplementsFst | src/eval.rs:139-149 | the pair-and-first-projection term evaluates to `x` |
| EvalExamples.ImplementsNotWithoutAlphaConversion | src/eval.rs:156-160 | the `not true` term with names `tt`/`ff` evaluates to `#v0<tt> -> #v1<ff> -> v1<ff>` |
| EvalExamples.ImplementsNotWithAlphaConversion | src/eval.rs:162-166 | the `not true` term whose names clash with `true`'s evaluates to `#v0<t> -> #v1<f> -> v1<f>` |
| EvalExamples.ImplementsApply | src/eval.rs:177-181 | `(#fun -> #x -> fun x) (#x -> x) (#t -> #f -> t)` evaluates to `#v0<t> -> #v1<f> -> v0<t>` |
| EvalExamples.CaptureInSecondRound | src/eval.rs:8 | after one contraction of `(#x -> x x (#y -> #z -> y)) (#w -> w)`, the renaming at the top of the next round turns the closed `#v1<y> -> #v2<z> -> v1<y>` into `#v2<y> -> #v3<z> -> v3<z>`, which is not alpha-equivalent |
| EvalExamples.EvaluationCapturesBoundVariable | src/eval.rs:4-17 | `eval` returns `#v0<y> -> #v1<z> -> v1<z>` on that term, which is not alpha-equivalent to its normal form `#y -> #z -> y` |
| EvalExamples.EvaluationStopsWithoutNormalForm | src/eval.rs:4-17 | on `(#x -> x x (#y -> #z -> y)) (#w -> w) ((#a -> a a) (#a -> a a)) (#i -> i)`, which has no normal form, `eval` stops after five contractions with `#v0<i> -> v0<i>` |
| FreshRenaming.NextFreeSkipsOnlyUsed | src/eval.rs:23-29 | the corrected generator takes the first candidate `v<k>` that is not in use, and skips only candidates that are |
| FreshRenaming.RenameAvoidingPreservesNameless | src/eval.rs:34-68 | the corrected `inner` changes no variable's binding, as long as every `v<k>` of the term from the counter on is among the names it avoids |
| FreshRenaming.FreshUniquifiedAlphaEquivalent | src/eval.rs:19-70 | the corrected `make_variables_unique` returns an alpha-equivalent term on every input |
| FreshRenaming.RenameAvoidingBindersUnused | src/eval.rs:34-68 | no lambda of the result of the corrected `inner` is given a name it avoids |
| FreshRenaming.FreshUniquifiedBindersFresh | src/eval.rs:19-70 | every parameter name the corrected pass hands out is new to the input and differs from every free variable of the result; the free variables are unchanged |
| FreshRenaming.EvaluateFreshResult | src/eval.rs:4-17 | `eval` with the corrected pass returns a term without a redex in which no parameter shares its name with a free variable |
| FreshRenaming.EvaluateFreshAvoidsCapture | src/eval.rs:4-17 | with the corrected pass, `(#x -> x x (#y -> #z -> y)) (#w -> w)` evaluates to `#v0<y> -> #v3<z> -> v0<y>`, which is alpha-equivalent to `#y -> #z -> y` |
| Pretty.PpChainCons | src/main.rs:16-22 | a chain of two or more terms renders as its first element in parentheses, one space, and the rest of the chain |
| Pretty.PpChainSnoc | src/main.rs:16-22 | appending a term to a chain appends one space and the term's rendering in parentheses |
| Pretty.PpVarExample | src/main.rs:77-85 | a variable renders as its name, also when written in parentheses |
| Pretty.PpLambdaExample | src/main.rs:87-100 | `# x -> y` renders as `# x -> y` |
| Pretty.PpAppExample | src/main.rs:92-95 | the chain `x y` renders as `(x) (y)` |
| Pretty.PpLambdaAppExample | src/main.rs:102-105 | a lambda in a chain keeps its parentheses: `(# x -> x) (y)` |
| Pretty.PpLongChainExample | src/main.rs:107-110 | the chain `a b c` renders as `(a) (b) (c)` |
| Pretty.PpEmptyChainExample | src/main.rs:16-22 | an empty chain renders as the empty string |
| Pretty.ParseTermOfPp | src/main.rs:12-24 | when every name is a non-empty identifier, a reader of the rendered form reads back exactly the term, and stops before whatever follows it |
| Pretty.ParsePp | src/main.rs:12-24 | such a rendering reads back as the term it came from |
| Pretty.PpInjective | src/main.rs:12-24 | two such terms with the same rendering are the same term |

## Left out

- The `println!` trace inside `eval` (src/eval.rs:7), and `main` (src/main.rs:68-71). Both are console output only.
- The `ast!` and `ast_app_chain!` macros (src/main.rs:32-66) and src/parser.rs are not part of this model. They rewrite token trees at compile time. The example lemmas build their terms directly.
- The `Display` impl of the chain-based `Ast` (src/main.rs:26-30) writes exactly `pp` of the term. The model has `Pp` and not the formatter plumbing around it.
- The renderer `.pretty()` of the `Identifier`-based terms, with its `v0<x>` annotations, is not part of this model. The eval tests are stated as expected terms rather than as strings.
- Renaming.AllVariables.Next: the counter is a `nat`, not an `i32`. Overflow is not modelled. The iterator's `None` case and the `panic!("no variables left")` branch (src/eval.rs:38) cannot happen in the source and are left out.
- Evaluation.Eval: `eval` loops forever as long as every round's `step` finds a redex. Because a renaming round can capture, it can also stop on a term that has no normal form (`EvalExamples.EvaluationStopsWithoutNormalForm`). The model bounds the number of contractions by `fuel` and returns `None` when the bound is reached. A `Some` result is exactly what `eval` returns.
- Alpha.UniquifiedAlphaEquivalent: requires that the term holds none of the names the pass hands out. The renaming pass does not avoid names that are already in use, so it is not an alpha-conversion on every term.
- Evaluation.Evaluate: the result is renamed and has no redex, but it is not in general a normal form of the input, because a renaming round can capture (`EvalExamples.EvaluationCapturesBoundVariable`). The model does not promise beta-equivalence of input and result.
- Pretty.ParsePp: the reader it uses is a reference for stating that `pp` loses no information. It is not the repository's parser.
- Ownership, `Box` and `clone` have no counterpart. Terms are immutable values here.

## Findings

| source | as written | input that shows it | evidently intended | confidence | as-written member | corrected member |
|---|---|---|---|---|---|---|
| src/eval.rs:19-70 | `make_variables_unique` hands out `v0`, `v1`, ... from 0 on every call and never checks them against the names in the term; `eval` (src/eval.rs:8) runs it on its own output, whose parameters already carry such names | `(#x -> x x (#y -> #z -> y)) (#w -> w)`: the second round renames `#v1<y> -> #v2<z> -> v1<y>` to `#v2<y> -> #v3<z> -> v3<z>`, and `eval` returns `#v0<y> -> #v1<z> -> v1<z>`; followed by `((#a -> a a) (#a -> a a)) (#i -> i)`, a term without a normal form, `eval` stops with `#v0<i> -> v0<i>` | skip every candidate name already used in the term, so that each round is an alpha-conversion and the result is `#y -> #z -> y` up to renaming | high; not executed | EvalExamples.EvaluationCapturesBoundVariable | FreshRenaming.FreshUniquifiedAlphaEquivalent |
