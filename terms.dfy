/** Lambda terms as the evaluator in src/eval.rs sees them, and the name analyses the proofs need. */
module Terms {
  import opened Wrappers

  /** A variable name after renaming (`identifier`) and the name the user wrote (`original`). */
  datatype Identifier = Identifier(identifier: string, original: string)

  /** `App`'s first field is `function` in the source; that word is reserved in Dafny. */
  datatype Ast =
    | Var(identifier: Identifier)
    | Lambda(parameter: Identifier, body: Ast)
    | App(func: Ast, argument: Ast)

  /** An identifier as the parser builds it: current and original name agree. */
  function Id(name: string): (id: Identifier)
    ensures id.identifier == name && id.original == name
  {
    Identifier(name, name)
  }

  // ---------------------------------------------------------------------------
  // Generated names "v0", "v1", ... (format!("v{}", counter))

  function Digit(d: nat): char
    requires d < 10
  {
    (('0' as int) + d) as char
  }

  /** Decimal rendering of a counter value, most significant digit first. */
  function Show(n: nat): (s: string)
    ensures |s| >= 1
    decreases n
  {
    if n < 10 then [Digit(n)] else Show(n / 10) + [Digit(n % 10)]
  }

  /** The inverse of Show: reads a string of decimal digits. */
  function ReadDecimal(s: string): int
  {
    if s == [] then 0 else ReadDecimal(s[..|s| - 1]) * 10 + (s[|s| - 1] as int - '0' as int)
  }

  lemma {:induction false} ReadShow(n: nat)
    ensures ReadDecimal(Show(n)) == n
    decreases n
  {
    if n >= 10 {
      var s := Show(n);
      assert s[..|s| - 1] == Show(n / 10);
      ReadShow(n / 10);
    }
  }

  /** The name the renaming pass gives to the lambda it meets as the `n`-th one. */
  function Name(n: nat): (s: string)
    ensures |s| >= 2 && s[0] == 'v'
  {
    "v" + Show(n)
  }

  /** Different counter values give different names. */
  lemma NameInjective(j: nat, k: nat)
    ensures Name(j) == Name(k) <==> j == k
  {
    if Name(j) == Name(k) {
      assert Show(j) == Name(j)[1..];
      assert Show(k) == Name(k)[1..];
      ReadShow(j);
      ReadShow(k);
    }
  }

  // ---------------------------------------------------------------------------
  // Analyses over terms

  function Size(t: Ast): (n: nat)
    ensures n >= 1
  {
    match t
    case Var(_) => 1
    case Lambda(_, b) => 1 + Size(b)
    case App(f, a) => 1 + Size(f) + Size(a)
  }

  /** The names of variables not bound by an enclosing lambda. */
  function FreeVars(t: Ast): set<string>
  {
    match t
    case Var(id) => {id.identifier}
    case Lambda(p, b) => FreeVars(b) - {p.identifier}
    case App(f, a) => FreeVars(f) + FreeVars(a)
  }

  /** Every current name in the term, bound or free, references and parameters alike. */
  function AllNames(t: Ast): set<string>
  {
    match t
    case Var(id) => {id.identifier}
    case Lambda(p, b) => {p.identifier} + AllNames(b)
    case App(f, a) => AllNames(f) + AllNames(a)
  }

  /** The lambda parameters in pre-order: a lambda before its body, a function before its argument. */
  function Binders(t: Ast): seq<Identifier>
  {
    match t
    case Var(_) => []
    case Lambda(p, b) => [p] + Binders(b)
    case App(f, a) => Binders(f) + Binders(a)
  }

  /** The tree of a term with every name erased. */
  datatype Shape = VarShape | LambdaShape(body: Shape) | AppShape(func: Shape, argument: Shape)

  function Skeleton(t: Ast): Shape
  {
    match t
    case Var(_) => VarShape
    case Lambda(_, b) => LambdaShape(Skeleton(b))
    case App(f, a) => AppShape(Skeleton(f), Skeleton(a))
  }

  lemma {:induction false} FreeVarsInAllNames(t: Ast)
    ensures FreeVars(t) <= AllNames(t)
  {
    match t
    case Var(_) =>
    case Lambda(_, b) => FreeVarsInAllNames(b);
    case App(f, a) => FreeVarsInAllNames(f); FreeVarsInAllNames(a);
  }
}
