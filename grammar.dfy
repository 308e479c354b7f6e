/** The recursive-descent parser of secondary expressions, as functions of
    the lexed symbols, the variable table and the cursor position: the
    literal parsers (literals.rs and literals/basic/), lists (list.rs),
    variable references (variableref.rs), function calls (functions.rs),
    `fmt` (expressions/primary/format.rs), parentheses (parentheses.rs),
    namespaces (values/namespaces.rs and the `parse_class_func` of each
    namespace) and the partial parser that ties them together
    (expressions/secondary.rs). Each function answers what the parser
    returns and where it leaves the cursor; the methods of `Parser` are
    proved to compute them. */
module Grammar {
  import opened Wrappers
  import opened Symbols
  import opened Values
  import opened Expressions
  import opened Context
  import opened Organize

  /** What a parser gives back, and where it leaves the cursor. */
  datatype Parsed<T> = Parsed(out: T, next: nat)

  /** A parse that can stop with one of the parser's panics. */
  type Parse<T> = Result<Parsed<T>, ParseError>

  /** The result without the cursor position. */
  function Answer<T>(r: Parse<T>): Result<T, ParseError> {
    match r
    case Success(p) => Success(p.out)
    case Failure(e) => Failure(e)
  }

  /** `get`: the next non-whitespace symbol; running out of symbols is a
      panic, `UnexpectedEnd` here. */
  function Current(syms: seq<Symbol>, i: nat): (r: Result<Symbol, ParseError>)
    requires i <= |syms|
    ensures r.Success? <==> Peek(syms, i).Success?
    ensures r.Success? ==> i < |syms| && r.value == Peek(syms, i).value
    ensures r.Failure? ==> r.error == UnexpectedEnd
  {
    match Peek(syms, i)
    case Success(s) => Success(s)
    case Failure(_) => Failure(UnexpectedEnd)
  }

  /** A parser of one token: it moves past the token (one `increment`)
      exactly when it yields something, and otherwise leaves the cursor
      where it was. */
  predicate OneToken<T>(syms: seq<Symbol>, i: nat, r: Parse<Option<T>>)
    requires i <= |syms|
  {
    r.Success? ==>
      (r.value.out.Some? ==> i < |syms| && r.value.next == Inc(syms, i)) &&
      (r.value.out.None? ==> r.value.next == i)
  }

  // ---------------------------------------------------------------------
  // Literals

  /** `BoolVal::parse`. */
  function BoolAt(syms: seq<Symbol>, i: nat): (r: Parse<Option<Literal>>)
    requires i <= |syms|
    ensures OneToken(syms, i, r)
  {
    match Current(syms, i)
    case Failure(e) => Failure(e)
    case Success(sym) =>
      if sym == LiteralSymb("true") then Success(Parsed(Some(Boolean(true)), Inc(syms, i)))
      else if sym == LiteralSymb("false") then Success(Parsed(Some(Boolean(false)), Inc(syms, i)))
      else Success(Parsed(None, i))
  }

  /** `StringVal::parse`. */
  function StringAt(syms: seq<Symbol>, i: nat): (r: Parse<Option<Literal>>)
    requires i <= |syms|
    ensures OneToken(syms, i, r)
  {
    match Current(syms, i)
    case Failure(e) => Failure(e)
    case Success(sym) =>
      if sym.StringLiteral? then Success(Parsed(Some(Str(sym.payload)), Inc(syms, i)))
      else Success(Parsed(None, i))
  }

  /** `NumberVal::parse`: a literal made of decimal digits only, whose
      value fits in an `i32`. */
  function NumberAt(syms: seq<Symbol>, i: nat): (r: Parse<Option<Literal>>)
    requires i <= |syms|
    ensures OneToken(syms, i, r)
  {
    match Current(syms, i)
    case Failure(e) => Failure(e)
    case Success(sym) =>
      if sym.LiteralSymb? && AllDigits(sym.payload) && ParseDigitsI32(sym.payload).Some? then
        Success(Parsed(Some(Number(ParseDigitsI32(sym.payload).value)), Inc(syms, i)))
      else Success(Parsed(None, i))
  }

  /** `parse_literal`: a boolean, else a string, else a number. */
  function LiteralAt(syms: seq<Symbol>, i: nat): (r: Parse<Option<Literal>>)
    requires i <= |syms|
    ensures OneToken(syms, i, r)
  {
    match BoolAt(syms, i)
    case Failure(e) => Failure(e)
    case Success(b) =>
      if b.out.Some? then Success(b)
      else
        match StringAt(syms, i)
        case Failure(e) => Failure(e)
        case Success(s) => if s.out.Some? then Success(s) else NumberAt(syms, i)
  }

  /** The token `sym` is written for the literal `l`: `true` or `false`
      for a boolean, a string token with the same contents for a string,
      and a non-empty run of decimal digits with the value of a number. */
  predicate Spells(sym: Symbol, l: Literal) {
    match l
    case Boolean(b) => sym == LiteralSymb(if b then "true" else "false")
    case Str(s) => sym == StringLiteral(s)
    case Number(n) =>
      sym.LiteralSymb? && sym.payload != [] && AllDigits(sym.payload) && DigitsValue(sym.payload) == n as int
  }

  /** `parse_literal` yields `l` exactly when the next symbol is written
      for `l`, and fails exactly when no symbol is left; anything else is
      not a literal. */
  lemma LiteralAtMeaning(syms: seq<Symbol>, i: nat, l: Literal)
    requires i <= |syms|
    ensures LiteralAt(syms, i).Failure? <==> Peek(syms, i).Failure?
    ensures (LiteralAt(syms, i).Success? && LiteralAt(syms, i).value.out == Some(l)) <==>
            (Peek(syms, i).Success? && Spells(Peek(syms, i).value, l))
  {
    if Peek(syms, i).Success? {
      var sym := Peek(syms, i).value;
    }
  }

  /** Every non-negative `i32` is spelled by its decimal digits, and no
      token spells a negative number: a leading `-` is lexed as the
      subtraction operator. */
  lemma NumberSpelling(n: I32)
    ensures n >= 0 ==> Spells(LiteralSymb(NatDecimal(n as nat)), Number(n))
    ensures forall sym :: Spells(sym, Number(n)) ==> n >= 0
  {
    if n >= 0 {
      DecimalRoundTrip(n as nat);
    }
  }

  // ---------------------------------------------------------------------
  // Single-token secondary expressions

  /** `match_operator_symbol`: the next symbol when it is one of the
      operators of the order; the cursor does not move. */
  function MatchOpAt(syms: seq<Symbol>, i: nat): (r: Result<Option<Symbol>, ParseError>)
    requires i <= |syms|
    ensures r.Success? <==> Current(syms, i).Success?
    ensures r.Success? ==> i < |syms|
    ensures r.Success? ==> (r.value.Some? <==> Current(syms, i).value in OperatorOrder)
    ensures r.Success? && r.value.Some? ==> r.value.value == Current(syms, i).value
    ensures r.Failure? ==> r.error == UnexpectedEnd
  {
    match Current(syms, i)
    case Failure(e) => Failure(e)
    case Success(sym) => Success(if sym in OperatorOrder then Some(sym) else None)
  }

  /** `VariableTokenRef::parse`: a literal that names a declared variable
      becomes a reference carrying the variable's recorded type. */
  function VarRefAt(syms: seq<Symbol>, vars: map<string, ValueType>, i: nat): (r: Parse<Option<Expr>>)
    requires i <= |syms|
    ensures OneToken(syms, i, r)
  {
    match Current(syms, i)
    case Failure(e) => Failure(e)
    case Success(sym) =>
      if sym.LiteralSymb? && sym.payload in vars then
        Success(Parsed(Some(Reference(sym.payload, vars[sym.payload])), Inc(syms, i)))
      else Success(Parsed(None, i))
  }

  /** A function name with its argument expressions. */
  datatype Call = Call(name: string, args: seq<Expr>)

  /** `parse_function_call`. It reads the symbol under the cursor a second
      time without moving, so the `(` it looks for after a name is never
      there: no call is ever parsed, the cursor stays put, and only running
      out of symbols is an error. */
  function FunctionCallAt(syms: seq<Symbol>, i: nat): (r: Parse<Option<Call>>)
    requires i <= |syms|
    ensures r.Success? <==> Peek(syms, i).Success?
    ensures r.Success? ==> r.value == Parsed(None, i)
    ensures r.Failure? ==> r.error == UnexpectedEnd
  {
    match Current(syms, i)
    case Failure(e) => Failure(e)
    case Success(_) => Success(Parsed(None, i))
  }

  /** `Format::parse`: it builds a `fmt` expression from a parsed call,
      and no call is ever parsed. */
  function FormatAt(syms: seq<Symbol>, i: nat): (r: Parse<Option<Expr>>)
    requires i <= |syms|
    ensures r.Success? <==> Peek(syms, i).Success?
    ensures r.Success? ==> r.value == Parsed(None, i)
  {
    match FunctionCallAt(syms, i)
    case Failure(e) => Failure(e)
    case Success(_) => Success(Parsed(None, i))
  }

  /** The names `parse_namespace` knows. */
  const Namespaces: set<string> := {"Database", "Model", "ThreadPool"}

  /** `parse_class_func` after `Name::`: `Model` yields nothing; `Database`
      and `ThreadPool` need a function call, which is never parsed, so they
      fail with "Invalid namespace member". */
  function ClassFuncAt(syms: seq<Symbol>, ns: string, i: nat): (r: Parse<Option<Expr>>)
    requires i <= |syms|
    ensures ns == "Model" ==> r == Success(Parsed(None, i))
    ensures ns != "Model" ==> r.Failure?
    ensures ns != "Model" && Peek(syms, i).Success? ==> r.error == InvalidNamespaceMember
  {
    if ns == "Model" then Success(Parsed(None, i))
    else
      match FunctionCallAt(syms, i)
      case Failure(e) => Failure(e)
      case Success(_) => Failure(InvalidNamespaceMember)
  }

  /** `parse_namespace`: a namespace name, then `::`, then the namespace's
      own parser; a `.` or anything else after the name is an error. */
  function NamespaceAt(syms: seq<Symbol>, i: nat): (r: Parse<Option<Expr>>)
    requires i <= |syms|
    ensures r.Success? ==> r.value.out.None?
    ensures Peek(syms, i).Success? && !(Peek(syms, i).value.LiteralSymb? && Peek(syms, i).value.payload in Namespaces) ==>
              r == Success(Parsed(None, i))
  {
    match Current(syms, i)
    case Failure(e) => Failure(e)
    case Success(sym) =>
      if !(sym.LiteralSymb? && sym.payload in Namespaces) then Success(Parsed(None, i))
      else
        var j := Inc(syms, i);
        match Current(syms, j)
        case Failure(e) => Failure(e)
        case Success(acc) =>
          if acc.ClassAccessor? then ClassFuncAt(syms, sym.payload, Inc(syms, j))
          else if acc.ValueAccessor? then Failure(WrongAccessor)
          else Failure(ExpectedClassAccessor)
  }

  /** Namespaces never yield an expression: the only outcomes are an
      error, nothing with the cursor in place, or nothing after
      `Model ::`, with the cursor past the `::`. */
  lemma NamespaceYieldsNothing(syms: seq<Symbol>, i: nat)
    requires i <= |syms|
    ensures var r := NamespaceAt(syms, i);
      r.Success? ==> r.value.out.None? && i <= r.value.next <= |syms|
    ensures var r := NamespaceAt(syms, i);
      r.Success? && r.value.next != i ==>
        Peek(syms, i) == Success(LiteralSymb("Model")) && Peek(syms, Inc(syms, i)) == Success(ClassAccessor)
    ensures Peek(syms, i).Success? && Peek(syms, i).value.LiteralSymb? &&
            Peek(syms, i).value.payload in {"Database", "ThreadPool"} ==>
              NamespaceAt(syms, i).Failure?
  {
  }

  // ---------------------------------------------------------------------
  // The partial parser and its recursive alternatives

  /** What `ListExpression::parse_element` returns: the element, its type,
      and whether a `,` follows. */
  datatype Element = Element(expr: Option<Expr>, typ: Option<ValueType>, more: bool)

  /** `parse_secondary_expression`: a partial parse, which must find
      something, organized into one expression tree. Every expression it
      yields has a static type, and the cursor ends past it. */
  function SecondaryAt(syms: seq<Symbol>, vars: map<string, ValueType>, i: nat): (r: Parse<Expr>)
    requires i <= |syms|
    ensures r.Success? ==> i < r.value.next <= |syms| && GetType(r.value.out).Success?
    decreases |syms| - i, 6
  {
    match PartialAt(syms, vars, i)
    case Failure(e) => Failure(e)
    case Success(Parsed(None, _)) => Failure(UnknownSecondaryExpression)
    case Success(Parsed(Some(l), j)) =>
      OrganizeTyped(l);
      match Organize.Organize(l)
      case Failure(e) => Failure(e)
      case Success(e) => Success(Parsed(e, j))
  }

  /** `partial_parse_secondary_expression`: an operand, then, while an
      operator follows, the operator and the rest. The list it yields
      alternates operand, operator, operand, starts and ends with an
      operand, and every operand has a static type. */
  function PartialAt(syms: seq<Symbol>, vars: map<string, ValueType>, i: nat): (r: Parse<Option<seq<Intermediate>>>)
    requires i <= |syms|
    ensures r.Success? ==> i <= r.value.next <= |syms|
    ensures r.Success? && r.value.out.Some? ==>
              i < r.value.next &&
              Alternating(ToTransition(r.value.out.value)) && OperandsTyped(ToTransition(r.value.out.value))
    decreases |syms| - i, 5
  {
    match OperandAt(syms, vars, i)
    case Failure(e) => Failure(e)
    case Success(Parsed(None, j)) => Success(Parsed(None, j))
    case Success(Parsed(Some(x), j)) =>
      match MatchOpAt(syms, j)
      case Failure(e) => Failure(e)
      case Success(None) =>
        SingleAlternating(x);
        Success(Parsed(Some([SecondaryExpr(x)]), j))
      case Success(Some(op)) =>
        match PartialAt(syms, vars, Inc(syms, j))
        case Failure(e) => Failure(e)
        case Success(Parsed(None, _)) => Failure(ExpectedExpressionAfterOperator)
        case Success(Parsed(Some(rest), k)) =>
          ConsAlternating(x, op, rest);
          Success(Parsed(Some([SecondaryExpr(x), Intermediate.Operator(op)] + rest), k))
  }

  /** The alternatives of the partial parser in their order: a literal, a
      list, `fmt`, parentheses, then a namespace and a variable reference.
      A parenthesised expression does not count as found, so the last two
      still run after it, and a variable reference they find replaces it. */
  function OperandAt(syms: seq<Symbol>, vars: map<string, ValueType>, i: nat): (r: Parse<Option<Expr>>)
    requires i <= |syms|
    ensures r.Success? ==> i <= r.value.next <= |syms|
    ensures r.Success? && r.value.out.Some? ==> i < r.value.next && GetType(r.value.out.value).Success?
    decreases |syms| - i, 4
  {
    match LiteralAt(syms, i)
    case Failure(e) => Failure(e)
    case Success(Parsed(Some(l), j)) => Success(Parsed(Some(LiteralExpr(l)), j))
    case Success(Parsed(None, _)) =>
      match ListAt(syms, vars, i)
      case Failure(e) => Failure(e)
      case Success(Parsed(Some(e), j)) => Success(Parsed(Some(e), j))
      case Success(Parsed(None, _)) =>
        match FormatAt(syms, i)
        case Failure(e) => Failure(e)
        case Success(_) =>
          match ParenAt(syms, vars, i)
          case Failure(e) => Failure(e)
          case Success(Parsed(p, j)) => FallbackAt(syms, vars, p, j)
  }

  /** The last two alternatives, run with `secexpr` (a parenthesised
      expression, or nothing) already in hand: a namespace, which never
      yields, then a variable reference, which replaces `secexpr`. */
  function FallbackAt(syms: seq<Symbol>, vars: map<string, ValueType>, secexpr: Option<Expr>, j: nat)
    : (r: Parse<Option<Expr>>)
    requires j <= |syms|
    requires secexpr.Some? ==> GetType(secexpr.value).Success?
    ensures r.Success? ==> j <= r.value.next <= |syms|
    ensures r.Success? && r.value.out.Some? ==>
              GetType(r.value.out.value).Success? && (r.value.out == secexpr || j < r.value.next)
  {
    NamespaceYieldsNothing(syms, j);
    match NamespaceAt(syms, j)
    case Failure(e) => Failure(e)
    case Success(ns) =>
      match VarRefAt(syms, vars, ns.next)
      case Failure(e) => Failure(e)
      case Success(Parsed(Some(x), m)) => Success(Parsed(Some(x), m))
      case Success(Parsed(None, m)) => Success(Parsed(secexpr, m))
  }

  /** `Parentheses::parse`: `(`, a secondary expression, and `)`. */
  function ParenAt(syms: seq<Symbol>, vars: map<string, ValueType>, i: nat): (r: Parse<Option<Expr>>)
    requires i <= |syms|
    ensures r.Success? ==> i <= r.value.next <= |syms|
    ensures r.Success? && r.value.out.None? ==> r.value.next == i
    ensures r.Success? && r.value.out.Some? ==> i < r.value.next && GetType(r.value.out.value).Success?
    decreases |syms| - i, 3
  {
    match Current(syms, i)
    case Failure(e) => Failure(e)
    case Success(sym) =>
      if !sym.ParenOpen? then Success(Parsed(None, i))
      else
        match SecondaryAt(syms, vars, Inc(syms, i))
        case Failure(e) => Failure(e)
        case Success(Parsed(inner, k)) => CloseParenAt(syms, inner, k)
  }

  /** The end of `Parentheses::parse`: the `)` after the inner expression
      is consumed, and anything else there is an error. */
  function CloseParenAt(syms: seq<Symbol>, inner: Expr, k: nat): (r: Parse<Option<Expr>>)
    requires k <= |syms| && GetType(inner).Success?
    ensures r.Success? <==> Current(syms, k) == Success(ParenClose)
    ensures r.Success? ==> r.value == Parsed(Some(ParenExpr(inner)), Inc(syms, k)) && k < r.value.next <= |syms|
    ensures r.Success? ==> GetType(r.value.out.value) == GetType(inner)
  {
    match Current(syms, k)
    case Failure(e) => Failure(e)
    case Success(close) =>
      if close.ParenClose? then Success(Parsed(Some(ParenExpr(inner)), Inc(syms, k)))
      else Failure(ExpectedClosingParen)
  }

  /** A list the parser may build: the empty list of `NoneType`, or two
      or more elements that all have the element type. */
  predicate WellFormedList(e: Expr) {
    e.ListExpr? &&
    ((e.exprs == [] && e.typ == NoneType) ||
     (|e.exprs| >= 2 && forall k :: 0 <= k < |e.exprs| ==> GetType(e.exprs[k]) == Success(e.typ)))
  }

  /** `ListExpression::parse`. After `[`, the first element decides: with
      no `,` after it the list is the empty list, even when it held an
      element, and the cursor stays on the `]`. Otherwise the elements are
      collected up to the `]`, which is consumed. */
  function ListAt(syms: seq<Symbol>, vars: map<string, ValueType>, i: nat): (r: Parse<Option<Expr>>)
    requires i <= |syms|
    ensures r.Success? ==> i <= r.value.next <= |syms|
    ensures r.Success? && r.value.out.None? ==> r.value.next == i
    ensures r.Success? && r.value.out.Some? ==> i < r.value.next && WellFormedList(r.value.out.value)
    decreases |syms| - i, 3
  {
    match Current(syms, i)
    case Failure(e) => Failure(e)
    case Success(sym) =>
      if !sym.BracketOpen? then Success(Parsed(None, i))
      else
        match ElementAt(syms, vars, i)
        case Failure(e) => Failure(e)
        case Success(Parsed(first, j)) =>
          if !first.more then Success(Parsed(Some(ListExpr([], NoneType)), j))
          else ListRestAt(syms, vars, j, [first.expr.value], first.typ.value)
  }

  /** The loop of `ListExpression::parse` after the first element, with
      the elements `acc` so far, all of type `t`. */
  function ListRestAt(syms: seq<Symbol>, vars: map<string, ValueType>, j: nat, acc: seq<Expr>, t: ValueType)
    : (r: Parse<Option<Expr>>)
    requires j < |syms|
    requires forall k :: 0 <= k < |acc| ==> GetType(acc[k]) == Success(t)
    ensures r.Success? ==> j < r.value.next <= |syms| && r.value.out.Some?
    ensures r.Success? ==>
              var e := r.value.out.value;
              e.ListExpr? && e.typ == t && |e.exprs| > |acc| && e.exprs[..|acc|] == acc &&
              forall k :: 0 <= k < |e.exprs| ==> GetType(e.exprs[k]) == Success(t)
    decreases |syms| - j, 2
  {
    match ElementAt(syms, vars, j)
    case Failure(e) => Failure(e)
    case Success(Parsed(el, k)) =>
      if el.expr.None? || el.typ.None? then Failure(UnexpectedListPattern)
      else if el.typ.value != t then Failure(HeterogeneousList)
      else if el.more then ListRestAt(syms, vars, k, acc + [el.expr.value], t)
      else Success(Parsed(Some(ListExpr(acc + [el.expr.value], t)), Inc(syms, k)))
  }

  /** `ListExpression::parse_element`: one `increment` (past the `[` or
      the `,`), then either the `]` of an empty list, left under the
      cursor, or an element with a type, followed by `]` or `,`, which is
      left under the cursor too. */
  function ElementAt(syms: seq<Symbol>, vars: map<string, ValueType>, p: nat): (r: Parse<Element>)
    requires p < |syms|
    ensures r.Success? ==> Inc(syms, p) <= r.value.next < |syms|
    ensures r.Success? && r.value.out.expr.None? ==> r.value.out.typ.None? && !r.value.out.more
    ensures r.Success? && r.value.out.expr.Some? ==>
              GetType(r.value.out.expr.value).Success? &&
              r.value.out.typ == Some(GetType(r.value.out.expr.value).value)
    ensures r.Success? ==>
              Peek(syms, r.value.next) == Success(if r.value.out.more then Comma else BracketClose)
    decreases |syms| - p, 1
  {
    var q := Inc(syms, p);
    match Current(syms, q)
    case Failure(e) => Failure(e)
    case Success(sym) =>
      if sym.BracketClose? then Success(Parsed(Element(None, None, false), q))
      else
        match SecondaryAt(syms, vars, q)
        case Failure(e) => Failure(e)
        case Success(Parsed(s, k)) =>
          match GetType(s)
          case Failure(te) => Failure(Untyped(te))
          case Success(t) =>
            match Current(syms, k)
            case Failure(e) => Failure(e)
            case Success(sep) =>
              if sep.BracketClose? then Success(Parsed(Element(Some(s), Some(t), false), k))
              else if sep.Comma? then Success(Parsed(Element(Some(s), Some(t), true), k))
              else Failure(ExpectedListSeparator)
  }

  /** An operand with no operator after it is the whole secondary
      expression, and the cursor stays right after it. */
  lemma SecondaryOfOperand(syms: seq<Symbol>, vars: map<string, ValueType>, i: nat, x: Expr, j: nat)
    requires i <= |syms|
    requires OperandAt(syms, vars, i) == Success(Parsed(Some(x), j)) && MatchOpAt(syms, j) == Success(None)
    ensures SecondaryAt(syms, vars, i) == Success(Parsed(x, j))
  {
    assert PartialAt(syms, vars, i) == Success(Parsed(Some([SecondaryExpr(x)]), j));
    OrganizeOperand(x);
  }

  /** An element is a typed secondary expression after the `[` or `,`,
      and the separator after it says whether more follow. */
  lemma ElementOf(syms: seq<Symbol>, vars: map<string, ValueType>, p: nat, x: Expr, k: nat)
    requires p < |syms|
    requires Peek(syms, Inc(syms, p)).Success? && !Peek(syms, Inc(syms, p)).value.BracketClose?
    requires SecondaryAt(syms, vars, Inc(syms, p)) == Success(Parsed(x, k)) && GetType(x).Success?
    requires Peek(syms, k) == Success(Comma) || Peek(syms, k) == Success(BracketClose)
    ensures ElementAt(syms, vars, p) ==
            Success(Parsed(Element(Some(x), Some(GetType(x).value), Peek(syms, k) == Success(Comma)), k))
  {
  }

  /** A list whose first element is followed by `]` reads as the empty
      list, and the `]` is left under the cursor: `[x]` is not a list of
      one element. */
  lemma SingletonReadsEmpty(syms: seq<Symbol>, vars: map<string, ValueType>, i: nat, x: Expr, k: nat)
    requires i < |syms| && Peek(syms, i) == Success(BracketOpen)
    requires Peek(syms, Inc(syms, i)).Success? && !Peek(syms, Inc(syms, i)).value.BracketClose?
    requires SecondaryAt(syms, vars, Inc(syms, i)) == Success(Parsed(x, k)) && GetType(x).Success?
    requires Peek(syms, k) == Success(BracketClose)
    ensures ListAt(syms, vars, i) == Success(Parsed(Some(ListExpr([], NoneType)), k))
  {
    ElementOf(syms, vars, i, x, k);
  }

  /** The first element followed by `,` hands over to the loop over the
      rest of the list. */
  lemma ListContinues(syms: seq<Symbol>, vars: map<string, ValueType>, i: nat, x: Expr, k: nat)
    requires i < |syms| && Peek(syms, i) == Success(BracketOpen)
    requires Peek(syms, Inc(syms, i)).Success? && !Peek(syms, Inc(syms, i)).value.BracketClose?
    requires SecondaryAt(syms, vars, Inc(syms, i)) == Success(Parsed(x, k)) && GetType(x).Success?
    requires Peek(syms, k) == Success(Comma)
    ensures k < |syms|
    ensures ListAt(syms, vars, i) == ListRestAt(syms, vars, k, [x], GetType(x).value)
  {
    ElementOf(syms, vars, i, x, k);
  }

  /** An element of the list's type followed by `]` ends the list, and the
      `]` is consumed. */
  lemma ListRestLast(syms: seq<Symbol>, vars: map<string, ValueType>, j: nat, acc: seq<Expr>, t: ValueType, x: Expr, k: nat)
    requires j < |syms| && forall n :: 0 <= n < |acc| ==> GetType(acc[n]) == Success(t)
    requires Peek(syms, Inc(syms, j)).Success? && !Peek(syms, Inc(syms, j)).value.BracketClose?
    requires SecondaryAt(syms, vars, Inc(syms, j)) == Success(Parsed(x, k)) && GetType(x) == Success(t)
    requires Peek(syms, k) == Success(BracketClose)
    ensures ListRestAt(syms, vars, j, acc, t) == Success(Parsed(Some(ListExpr(acc + [x], t)), Inc(syms, k)))
  {
    ElementOf(syms, vars, j, x, k);
  }

  /** A list read at `[` is the operand there. */
  lemma ListOperand(syms: seq<Symbol>, vars: map<string, ValueType>, i: nat, l: Expr, j: nat)
    requires i < |syms| && Peek(syms, i) == Success(BracketOpen)
    requires ListAt(syms, vars, i) == Success(Parsed(Some(l), j))
    ensures OperandAt(syms, vars, i) == Success(Parsed(Some(l), j))
  {
    assert LiteralAt(syms, i) == Success(Parsed(None, i));
  }

  /** The alternatives before parentheses all pass over `(`. */
  lemma OperandAtParen(syms: seq<Symbol>, vars: map<string, ValueType>, i: nat)
    requires i <= |syms| && Peek(syms, i) == Success(ParenOpen)
    ensures OperandAt(syms, vars, i) ==
            match ParenAt(syms, vars, i)
            case Failure(e) => Failure(e)
            case Success(Parsed(p, j)) => FallbackAt(syms, vars, p, j)
  {
    assert LiteralAt(syms, i) == Success(Parsed(None, i));
    assert ListAt(syms, vars, i) == Success(Parsed(None, i));
    assert FormatAt(syms, i) == Success(Parsed(None, i));
  }

  /** A parenthesised expression followed by the name of a declared
      variable is replaced by the reference to that variable. */
  lemma ReferenceOverridesParentheses(syms: seq<Symbol>, vars: map<string, ValueType>, i: nat, p: Expr, j: nat)
    requires i <= |syms| && ParenAt(syms, vars, i) == Success(Parsed(Some(p), j))
    requires Peek(syms, j).Success? && Peek(syms, j).value.LiteralSymb?
    requires Peek(syms, j).value.payload in vars && Peek(syms, j).value.payload !in Namespaces
    ensures OperandAt(syms, vars, i) ==
            Success(Parsed(Some(Reference(Peek(syms, j).value.payload, vars[Peek(syms, j).value.payload])), Inc(syms, j)))
  {
    assert Peek(syms, i) == Success(ParenOpen);
    OperandAtParen(syms, vars, i);
    assert NamespaceAt(syms, j) == Success(Parsed(None, j));
  }

  /** One operand on its own alternates. */
  lemma SingleAlternating(x: Expr)
    requires GetType(x).Success?
    ensures Alternating(ToTransition([SecondaryExpr(x)])) && OperandsTyped(ToTransition([SecondaryExpr(x)]))
  {
    assert ToTransition([SecondaryExpr(x)])[0] == TransExpr(x);
  }

  /** An operand and an operator in front of an alternating list keep it
      alternating. */
  lemma ConsAlternating(x: Expr, op: Symbol, rest: seq<Intermediate>)
    requires GetType(x).Success? && op in OperatorOrder
    requires Alternating(ToTransition(rest)) && OperandsTyped(ToTransition(rest))
    ensures var l := [SecondaryExpr(x), Intermediate.Operator(op)] + rest;
      Alternating(ToTransition(l)) && OperandsTyped(ToTransition(l))
  {
    var l := [SecondaryExpr(x), Intermediate.Operator(op)] + rest;
    var t, u := ToTransition(l), ToTransition(rest);
    var front := [TransExpr(x), InterExpr(Intermediate.Operator(op))];
    forall k | 0 <= k < |t|
      ensures t[k] == (front + u)[k]
    {
      if k >= 2 {
        assert l[k] == rest[k - 2];
      }
    }
    assert t == front + u;
    TransitionsCons(front[0], front[1], u);
  }

  /** The transition-list form of `ConsAlternating`. */
  lemma TransitionsCons(a: Transition, b: Transition, u: seq<Transition>)
    requires a.TransExpr? && GetType(a.expr).Success?
    requires b.InterExpr? && b.inter.Operator? && b.inter.sym in OperatorOrder
    requires Alternating(u) && OperandsTyped(u)
    ensures Alternating([a, b] + u) && OperandsTyped([a, b] + u)
  {
    var t := [a, b] + u;
    forall k | 2 <= k < |t|
      ensures t[k] == u[k - 2] && (k % 2 == 0 <==> (k - 2) % 2 == 0)
    {
    }
  }

  // ---------------------------------------------------------------------
  // Function call arguments

  /** `parse_function_call_args`: one or more secondary expressions, each
      followed by `,` or by the closing `)`, which ends the list and is
      consumed; any other separator is an error. */
  function CallArgsAt(syms: seq<Symbol>, vars: map<string, ValueType>, i: nat): (r: Parse<seq<Expr>>)
    requires i <= |syms|
    ensures r.Success? ==> i < r.value.next <= |syms| && |r.value.out| >= 1
    ensures r.Success? ==> forall k :: 0 <= k < |r.value.out| ==> GetType(r.value.out[k]).Success?
    decreases |syms| - i
  {
    match SecondaryAt(syms, vars, i)
    case Failure(e) => Failure(e)
    case Success(Parsed(e, j)) =>
      match Current(syms, j)
      case Failure(err) => Failure(err)
      case Success(sep) =>
        if sep.Comma? then
          match CallArgsAt(syms, vars, Inc(syms, j))
          case Failure(err) => Failure(err)
          case Success(Parsed(rest, k)) => Success(Parsed([e] + rest, k))
        else if sep.ParenClose? then Success(Parsed([e], Inc(syms, j)))
        else Failure(UnknownArgumentSeparator)
  }
}
