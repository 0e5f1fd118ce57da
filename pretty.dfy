/**
 * The renderer `pp` of src/main.rs, over that file's own term type, in which an application is a
 * flat chain of terms. The reading function below is not part of the source: it exists to show
 * that `pp` loses no information when every name is a plain identifier.
 */
module Pretty {
  import opened Wrappers

  datatype Ast =
    | Lambda(parameter: string, body: Ast)
    | Var(variable: string)
    | AppChain(terms: seq<Ast>)

  /** `join`: the parts in order, with `sep` between neighbours; no parts give "". */
  function Join(parts: seq<string>, sep: string): (s: string)
    ensures |parts| == 1 ==> s == parts[0]
  {
    if |parts| == 0 then ""
    else if |parts| == 1 then parts[0]
    else parts[0] + sep + Join(parts[1..], sep)
  }

  /** `pp`: names as they are, `# p -> body` for a lambda, every chain element in parentheses. */
  function Pp(ast: Ast): string
    decreases ast
  {
    match ast
    case Var(variable) => variable
    case Lambda(parameter, body) => "# " + parameter + " -> " + Pp(body)
    case AppChain(terms) => Join(Groups(terms), " ")
  }

  /** The rendering of each chain element, wrapped in parentheses. */
  function Groups(terms: seq<Ast>): (r: seq<string>)
    ensures |r| == |terms|
    decreases terms
  {
    seq(|terms|, i requires 0 <= i < |terms| => "(" + Pp(terms[i]) + ")")
  }

  // ---------------------------------------------------------------------------
  // Shape of the output

  /** An application chain is its first element in parentheses, a space, and the rest of the chain. */
  lemma PpChainCons(terms: seq<Ast>)
    requires |terms| >= 2
    ensures Pp(AppChain(terms)) == "(" + Pp(terms[0]) + ") " + Pp(AppChain(terms[1..]))
  {
    assert Groups(terms)[1..] == Groups(terms[1..]);
  }

  /** Appending an element to a chain appends a space and its wrapped rendering. */
  lemma {:induction false} PpChainSnoc(terms: seq<Ast>, last: Ast)
    requires |terms| >= 1
    ensures Pp(AppChain(terms + [last])) == Pp(AppChain(terms)) + " (" + Pp(last) + ")"
    decreases |terms|
  {
    var all := terms + [last];
    assert Groups(all)[0] == "(" + Pp(terms[0]) + ")";
    if |terms| == 1 {
      assert Groups(all) == ["(" + Pp(terms[0]) + ")", "(" + Pp(last) + ")"];
    } else {
      assert all[1..] == terms[1..] + [last];
      PpChainCons(all);
      PpChainCons(terms);
      PpChainSnoc(terms[1..], last);
    }
  }

  // ---------------------------------------------------------------------------
  // The expected strings of the tests in src/main.rs

  lemma PpVarExample()
    ensures Pp(Var("x")) == "x"
  {
  }

  lemma PpLambdaExample()
    ensures Pp(Lambda("x", Var("y"))) == "# x -> y"
  {
  }

  lemma PpAppExample()
    ensures Pp(AppChain([Var("x"), Var("y")])) == "(x) (y)"
  {
    var xy := [Var("x"), Var("y")];
    assert Groups(xy)[0] == "(x)" && Groups(xy)[1] == "(y)";
    assert Groups(xy) == ["(x)", "(y)"];
  }

  /** A lambda in function position keeps its parentheses, so the output is not ambiguous. */
  lemma PpLambdaAppExample()
    ensures Pp(AppChain([Lambda("x", Var("x")), Var("y")])) == "(# x -> x) (y)"
  {
    var lam := [Lambda("x", Var("x")), Var("y")];
    assert Pp(lam[0]) == "# x -> x";
    assert Groups(lam)[0] == "(# x -> x)" && Groups(lam)[1] == "(y)";
    assert Groups(lam) == ["(# x -> x)", "(y)"];
  }

  lemma PpLongChainExample()
    ensures Pp(AppChain([Var("a"), Var("b"), Var("c")])) == "(a) (b) (c)"
  {
    var abc := [Var("a"), Var("b"), Var("c")];
    assert Groups(abc)[0] == "(a)" && Groups(abc)[1] == "(b)" && Groups(abc)[2] == "(c)";
    assert Groups(abc) == ["(a)", "(b)", "(c)"];
    assert Join(["(a)", "(b)", "(c)"], " ") == "(a) " + Join(["(b)", "(c)"], " ");
  }

  /** An empty chain renders as the empty string. */
  lemma PpEmptyChainExample()
    ensures Pp(AppChain([])) == ""
  {
  }

  // ---------------------------------------------------------------------------
  // Reading a rendering back

  predicate IsNameChar(c: char)
  {
    ('a' <= c <= 'z') || ('A' <= c <= 'Z') || ('0' <= c <= '9') || c == '_'
  }

  predicate IsName(s: string)
  {
    |s| > 0 && forall i :: 0 <= i < |s| ==> IsNameChar(s[i])
  }

  /** Every name in the term is a non-empty identifier. */
  predicate WellFormed(ast: Ast)
    decreases ast
  {
    match ast
    case Var(variable) => IsName(variable)
    case Lambda(parameter, body) => IsName(parameter) && WellFormed(body)
    case AppChain(terms) => AllWellFormed(terms)
  }

  predicate AllWellFormed(terms: seq<Ast>)
    decreases terms
  {
    forall i :: 0 <= i < |terms| ==> WellFormed(terms[i])
  }

  /** Splits off the longest prefix of name characters. */
  function SpanName(s: string): (r: (string, string))
    ensures r.0 + r.1 == s
  {
    if s == [] || !IsNameChar(s[0]) then ([], s)
    else
      var tail := SpanName(s[1..]);
      ([s[0]] + tail.0, tail.1)
  }

  lemma {:induction false} SpanNameOf(name: string, rest: string)
    requires forall i :: 0 <= i < |name| ==> IsNameChar(name[i])
    requires rest == [] || !IsNameChar(rest[0])
    ensures SpanName(name + rest) == (name, rest)
  {
    if name != [] {
      assert (name + rest)[0] == name[0];
      assert (name + rest)[1..] == name[1..] + rest;
      SpanNameOf(name[1..], rest);
      assert [name[0]] + name[1..] == name;
    } else {
      assert name + rest == rest;
    }
  }

  /** Reads one term off the front of `s` and returns it with what follows it. */
  function ParseTerm(s: string): (r: Option<(Ast, string)>)
    ensures r.Some? ==> |r.value.1| <= |s|
    decreases |s|, 1
  {
    if |s| >= 2 && s[0] == '#' && s[1] == ' ' then
      var (name, rest) := SpanName(s[2..]);
      if name != [] && |rest| >= 4 && rest[..4] == " -> " then
        match ParseTerm(rest[4..])
        case None => None
        case Some((body, after)) => Some((Lambda(name, body), after))
      else None
    else if |s| >= 1 && s[0] == '(' then
      match ParseGroups(s)
      case None => None
      case Some((terms, after)) => Some((AppChain(terms), after))
    else if |s| >= 1 && IsNameChar(s[0]) then
      var (name, rest) := SpanName(s);
      Some((Var(name), rest))
    else Some((AppChain([]), s))
  }

  /** Reads `(t1) (t2) ... (tn)`, n >= 1, off the front of `s`. */
  function ParseGroups(s: string): (r: Option<(seq<Ast>, string)>)
    ensures r.Some? ==> |r.value.1| < |s|
    decreases |s|, 0
  {
    if |s| == 0 || s[0] != '(' then None
    else match ParseTerm(s[1..])
      case None => None
      case Some((term, rest)) =>
        if |rest| == 0 || rest[0] != ')' then None
        else
          var after := rest[1..];
          if |after| >= 2 && after[0] == ' ' && after[1] == '(' then
            match ParseGroups(after[1..])
            case None => None
            case Some((terms, rest')) => Some(([term] + terms, rest'))
          else Some(([term], after))
  }

  function Parse(s: string): Option<Ast>
  {
    match ParseTerm(s)
    case Some((ast, rest)) => if rest == [] then Some(ast) else None
    case None => None
  }

  lemma {:induction false} ParseTermOfPp(ast: Ast, rest: string)
    requires WellFormed(ast)
    requires rest == [] || rest[0] == ')'
    ensures ParseTerm(Pp(ast) + rest) == Some((ast, rest))
    decreases ast
  {
    match ast
    case Var(variable) =>
      ParseVarHead(variable, rest);
    case Lambda(parameter, body) =>
      ParseTermOfPp(body, rest);
      ParseLambdaHead(parameter, body, rest);
    case AppChain(terms) =>
      if terms != [] {
        ParseGroupsOfPp(terms, rest);
        assert Groups(terms)[0][0] == '(';
        JoinStartsWithFirst(Groups(terms), " ");
        ParseChainHead(Join(Groups(terms), " ") + rest, terms, rest);
      } else {
        assert Pp(ast) + rest == rest;
      }
  }

  lemma ParseVarHead(variable: string, rest: string)
    requires IsName(variable)
    requires rest == [] || rest[0] == ')'
    ensures ParseTerm(variable + rest) == Some((Var(variable), rest))
  {
    SpanNameOf(variable, rest);
    assert (variable + rest)[0] == variable[0];
  }

  lemma ParseLambdaHead(parameter: string, body: Ast, rest: string)
    requires IsName(parameter)
    requires ParseTerm(Pp(body) + rest) == Some((body, rest))
    ensures ParseTerm(Pp(Lambda(parameter, body)) + rest) == Some((Lambda(parameter, body), rest))
  {
    var tail := Pp(body) + rest;
    assert Pp(Lambda(parameter, body)) + rest == "# " + (parameter + (" -> " + tail));
    ParseLambdaText(parameter, tail, body, rest);
  }

  lemma ParseLambdaText(name: string, tail: string, body: Ast, rest: string)
    requires IsName(name)
    requires ParseTerm(tail) == Some((body, rest))
    ensures ParseTerm("# " + (name + (" -> " + tail))) == Some((Lambda(name, body), rest))
  {
    var arrow := " -> " + tail;
    var s := "# " + (name + arrow);
    assert s[0] == '#' && s[1] == ' ';
    assert s[2..] == name + arrow;
    SpanNameOf(name, arrow);
    assert arrow[..4] == " -> ";
    assert arrow[4..] == tail;
  }

  lemma ParseChainHead(s: string, terms: seq<Ast>, rest: string)
    requires |s| >= 1 && s[0] == '('
    requires ParseGroups(s) == Some((terms, rest))
    ensures ParseTerm(s) == Some((AppChain(terms), rest))
  {
  }

  lemma {:induction false} ParseGroupsOfPp(terms: seq<Ast>, rest: string)
    requires terms != [] && AllWellFormed(terms)
    requires rest == [] || rest[0] == ')'
    ensures ParseGroups(Join(Groups(terms), " ") + rest) == Some((terms, rest))
    decreases terms
  {
    var first := terms[0];
    var body := Pp(first);
    if |terms| == 1 {
      RenderedSingle(terms, rest);
      ParseTermOfPp(first, ")" + rest);
      ParseGroupsLast(body, first, rest);
      assert terms == [first];
    } else {
      var chain := Join(Groups(terms[1..]), " ");
      RenderedCons(terms, rest);
      ParseTermOfPp(first, ")" + (" " + chain + rest));
      AllWellFormedTail(terms);
      ParseGroupsOfPp(terms[1..], rest);
      JoinStartsWithFirst(Groups(terms[1..]), " ");
      ParseGroupsMore(body, first, chain, rest, terms[1..]);
      assert terms == [first] + terms[1..];
    }
  }

  lemma RenderedSingle(terms: seq<Ast>, rest: string)
    requires |terms| == 1
    ensures Join(Groups(terms), " ") + rest == "(" + (Pp(terms[0]) + (")" + rest))
  {
  }

  lemma RenderedCons(terms: seq<Ast>, rest: string)
    requires |terms| >= 2
    ensures Join(Groups(terms), " ") + rest
         == "(" + (Pp(terms[0]) + (")" + (" " + Join(Groups(terms[1..]), " ") + rest)))
  {
    PpChainCons(terms);
    assert Join(Groups(terms), " ") == Pp(AppChain(terms));
    assert Join(Groups(terms[1..]), " ") == Pp(AppChain(terms[1..]));
    Regroup(Pp(terms[0]), Pp(AppChain(terms[1..])), rest);
  }

  lemma Regroup(first: string, later: string, rest: string)
    ensures "(" + first + ") " + later + rest == "(" + (first + (")" + (" " + later + rest)))
  {
    assert ") " + later == ")" + (" " + later);
  }

  lemma AllWellFormedTail(terms: seq<Ast>)
    requires terms != [] && AllWellFormed(terms)
    ensures AllWellFormed(terms[1..])
  {
    forall i | 0 <= i < |terms[1..]| ensures WellFormed(terms[1..][i]) {
      assert terms[1..][i] == terms[i + 1];
    }
  }

  /** The last group of a chain: nothing that opens another group follows it. */
  lemma ParseGroupsLast(body: string, first: Ast, rest: string)
    requires rest == [] || rest[0] == ')'
    requires ParseTerm(body + (")" + rest)) == Some((first, ")" + rest))
    ensures ParseGroups("(" + (body + (")" + rest))) == Some(([first], rest))
  {
    var s := "(" + (body + (")" + rest));
    assert s[1..] == body + (")" + rest);
    assert (")" + rest)[1..] == rest;
  }

  /** A group followed by a space and further groups. */
  lemma ParseGroupsMore(body: string, first: Ast, chain: string, rest: string, later: seq<Ast>)
    requires |chain| >= 1 && chain[0] == '('
    requires ParseTerm(body + (")" + (" " + chain + rest))) == Some((first, ")" + (" " + chain + rest)))
    requires ParseGroups(chain + rest) == Some((later, rest))
    ensures ParseGroups("(" + (body + (")" + (" " + chain + rest)))) == Some(([first] + later, rest))
  {
    var after := " " + chain + rest;
    var s := "(" + (body + (")" + after));
    assert s[1..] == body + (")" + after);
    assert (")" + after)[1..] == after;
    assert after[0] == ' ' && after[1] == '(';
    assert after[1..] == chain + rest;
  }

  lemma JoinStartsWithFirst(parts: seq<string>, sep: string)
    requires |parts| >= 1 && |parts[0]| >= 1
    ensures |Join(parts, sep)| >= 1 && Join(parts, sep)[0] == parts[0][0]
  {
  }

  /** `pp` loses nothing: its output reads back as the same term when every name is an identifier. */
  lemma ParsePp(ast: Ast)
    requires WellFormed(ast)
    ensures Parse(Pp(ast)) == Some(ast)
  {
    ParseTermOfPp(ast, []);
    assert Pp(ast) + [] == Pp(ast);
  }

  /** So two well-formed terms with the same rendering are the same term. */
  lemma PpInjective(a: Ast, b: Ast)
    requires WellFormed(a) && WellFormed(b)
    requires Pp(a) == Pp(b)
    ensures a == b
  {
    ParsePp(a);
    ParsePp(b);
  }
}
