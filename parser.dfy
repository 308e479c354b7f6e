/** The parsers as the source writes them: methods that read symbols
    through the parsing `Context` and move its cursor. Each is proved to
    give the answer of its counterpart in `Grammar` and to leave the
    cursor where that counterpart says; none of them touches the
    variable table. A panic of the source returns its error kind, and the
    cursor is then left unspecified. */
module Parser {
  import opened Wrappers
  import opened Symbols
  import opened Values
  import opened Expressions
  import opened Context
  import opened Organize
  import opened Grammar

  /** The method returned what `spec` answers and, when `spec` succeeds,
      left the cursor at `index`, where `spec` stops. */
  predicate Follows<T(==)>(r: Result<T, ParseError>, spec: Parse<T>, index: nat) {
    r == Answer(spec) && (spec.Success? ==> index == spec.value.next)
  }

  // ---------------------------------------------------------------------
  // Literals

  /** `BoolVal::parse` (literals/basic/bool.rs). */
  method ParseBool(ctx: Context) returns (r: Result<Option<Literal>, ParseError>)
    requires ctx.index <= |ctx.symbols|
    modifies ctx
    ensures Follows(r, BoolAt(ctx.symbols, old(ctx.index)), ctx.index)
    ensures ctx.vartable == old(ctx.vartable)
  {
    var sym := ctx.Get();
    if sym.Failure? {
      return Failure(UnexpectedEnd);
    }
    match sym.value
    case LiteralSymb(s) =>
      if s == "true" {
        ctx.Increment();
        return Success(Some(Boolean(true)));
      } else if s == "false" {
        ctx.Increment();
        return Success(Some(Boolean(false)));
      }
      return Success(None);
    case _ =>
      return Success(None);
  }

  /** `StringVal::parse` (literals/basic/string.rs). */
  method ParseString(ctx: Context) returns (r: Result<Option<Literal>, ParseError>)
    requires ctx.index <= |ctx.symbols|
    modifies ctx
    ensures Follows(r, StringAt(ctx.symbols, old(ctx.index)), ctx.index)
    ensures ctx.vartable == old(ctx.vartable)
  {
    var sym := ctx.Get();
    if sym.Failure? {
      return Failure(UnexpectedEnd);
    }
    match sym.value
    case StringLiteral(s) =>
      ctx.Increment();
      return Success(Some(Str(s)));
    case _ =>
      return Success(None);
  }

  /** `NumberVal::parse` (literals/basic/number.rs): every character must
      be a decimal digit, then `str::parse::<i32>` must accept the text. */
  method ParseNumber(ctx: Context) returns (r: Result<Option<Literal>, ParseError>)
    requires ctx.index <= |ctx.symbols|
    modifies ctx
    ensures Follows(r, NumberAt(ctx.symbols, old(ctx.index)), ctx.index)
    ensures ctx.vartable == old(ctx.vartable)
  {
    var sym := ctx.Get();
    if sym.Failure? {
      return Failure(UnexpectedEnd);
    }
    if !sym.value.LiteralSymb? {
      return Success(None);
    }
    var snippet := sym.value.payload;
    for idx := 0 to |snippet|
      invariant forall k :: 0 <= k < idx ==> IsDigit(snippet[k])
    {
      var oneChar := snippet[idx];
      if !('0' <= oneChar <= '9') {
        return Success(None);
      }
    }
    var num := ParseDigitsI32(snippet);
    if num.Some? {
      ctx.Increment();
      return Success(Some(Number(num.value)));
    }
    return Success(None);
  }

  /** `parse_literal` (literals.rs): a boolean, else a string, else a
      number. */
  method ParseLiteral(ctx: Context) returns (r: Result<Option<Literal>, ParseError>)
    requires ctx.index <= |ctx.symbols|
    modifies ctx
    ensures Follows(r, LiteralAt(ctx.symbols, old(ctx.index)), ctx.index)
    ensures ctx.vartable == old(ctx.vartable)
  {
    r := ParseBool(ctx);
    if r.Failure? || r.value.Some? {
      return;
    }
    r := ParseString(ctx);
    if r.Failure? || r.value.Some? {
      return;
    }
    r := ParseNumber(ctx);
  }

  // ---------------------------------------------------------------------
  // Single-token parsers and function calls

  /** `match_operator_symbol` (expressions/secondary.rs): the symbol under
      the cursor, when it is one of the operators of the order. */
  method MatchOperatorSymbol(ctx: Context) returns (r: Result<Option<Symbol>, ParseError>)
    requires ctx.index <= |ctx.symbols|
    ensures r == MatchOpAt(ctx.symbols, ctx.index)
  {
    var sym := ctx.Get();
    if sym.Failure? {
      return Failure(UnexpectedEnd);
    }
    var ops := OperatorOrder;
    for k := 0 to |ops|
      invariant sym.value !in ops[..k]
    {
      if sym.value == ops[k] {
        return Success(Some(sym.value));
      }
    }
    assert ops[..|ops|] == ops;
    return Success(None);
  }

  /** `VariableTokenRef::parse` (literals/basic/variableref.rs): the
      literal is looked up among the declared names. */
  method ParseVariableRef(ctx: Context) returns (r: Result<Option<Expr>, ParseError>)
    requires ctx.index <= |ctx.symbols|
    modifies ctx
    ensures Follows(r, VarRefAt(ctx.symbols, ctx.vartable, old(ctx.index)), ctx.index)
    ensures ctx.vartable == old(ctx.vartable)
  {
    var sym := ctx.Get();
    if sym.Failure? {
      return Failure(UnexpectedEnd);
    }
    match sym.value
    case LiteralSymb(v) =>
      var names := ctx.GetVarnames();
      for k := 0 to |names|
        invariant v !in names[..k]
      {
        if names[k] == v {
          ctx.Increment();
          var typ := ctx.GetVartype(v);
          return Success(Some(Reference(v, typ.value)));
        }
      }
      assert names[..|names|] == names;
      return Success(None);
    case _ =>
      return Success(None);
  }

  /** `parse_function_call` (literals/basic/functions.rs). After a name
      it calls `get` again without moving, so it sees the name a second
      time and never the `(`; the branch that would read the arguments is
      unreachable. */
  method ParseFunctionCall(ctx: Context) returns (r: Result<Option<Call>, ParseError>)
    requires ctx.index <= |ctx.symbols|
    ensures r == Answer(FunctionCallAt(ctx.symbols, ctx.index))
  {
    var sym := ctx.Get();
    if sym.Failure? {
      return Failure(UnexpectedEnd);
    }
    if sym.value.LiteralSymb? {
      var again := ctx.Get();
      if again.Success? && again.value.ParenOpen? {
        assert false;
      }
    }
    return Success(None);
  }

  /** `parse_function_call_args` (literals/basic/functions.rs): secondary
      expressions separated by `,` up to the closing `)`. */
  method ParseFunctionCallArgs(ctx: Context) returns (r: Result<seq<Expr>, ParseError>)
    requires ctx.index <= |ctx.symbols|
    modifies ctx
    ensures Follows(r, CallArgsAt(ctx.symbols, ctx.vartable, old(ctx.index)), ctx.index)
    ensures ctx.vartable == old(ctx.vartable)
  {
    var args := [];
    while true
      invariant ctx.index <= |ctx.symbols| && ctx.vartable == old(ctx.vartable)
      invariant CallArgsAt(ctx.symbols, ctx.vartable, old(ctx.index)) ==
                PrependArgs(args, CallArgsAt(ctx.symbols, ctx.vartable, ctx.index))
      decreases |ctx.symbols| - ctx.index
    {
      var secexpr := ParseSecondary(ctx);
      if secexpr.Failure? {
        return Failure(secexpr.error);
      }
      var sep := ctx.Get();
      if sep.Failure? {
        return Failure(UnexpectedEnd);
      }
      if sep.value.Comma? {
        ctx.Increment();
        PrependArgsAssoc(args, secexpr.value, CallArgsAt(ctx.symbols, ctx.vartable, ctx.index));
        args := args + [secexpr.value];
      } else if sep.value.ParenClose? {
        ctx.Increment();
        return Success(args + [secexpr.value]);
      } else {
        return Failure(UnknownArgumentSeparator);
      }
    }
  }

  /** The arguments already read in front of those still to come. */
  function PrependArgs(acc: seq<Expr>, rest: Parse<seq<Expr>>): (r: Parse<seq<Expr>>)
    ensures r.Success? <==> rest.Success?
    ensures r.Success? ==> |r.value.out| == |acc| + |rest.value.out|
    ensures r.Success? ==> r.value.out[..|acc|] == acc && r.value.out[|acc|..] == rest.value.out
  {
    match rest
    case Failure(e) => Failure(e)
    case Success(p) => Success(Parsed(acc + p.out, p.next))
  }

  /** Reading one more argument moves it from the parse still to come to
      the arguments already read. */
  lemma PrependArgsAssoc(acc: seq<Expr>, e: Expr, rest: Parse<seq<Expr>>)
    ensures PrependArgs(acc, PrependArgs([e], rest)) == PrependArgs(acc + [e], rest)
  {
    if rest.Success? {
      assert acc + ([e] + rest.value.out) == (acc + [e]) + rest.value.out;
    }
  }

  /** `Format::parse` (expressions/primary/format.rs): a call named `fmt`
      would become a format expression and any other call would be undone,
      but no call is ever parsed. */
  method ParseFormat(ctx: Context) returns (r: Result<Option<Expr>, ParseError>)
    requires ctx.index <= |ctx.symbols|
    modifies ctx
    ensures Follows(r, FormatAt(ctx.symbols, old(ctx.index)), ctx.index)
    ensures ctx.vartable == old(ctx.vartable)
  {
    var call := ParseFunctionCall(ctx);
    match call
    case Failure(e) =>
      return Failure(e);
    case Success(None) =>
      return Success(None);
    case Success(Some(_)) =>
      // no call is ever parsed, so neither `fmt` nor the jump back is reached
      assert false;
  }

  /** `parse_class_func` of the namespaces (values/namespaces/model.rs,
      database.rs and stdlib/threads.rs). */
  method ParseClassFunc(ctx: Context, ns: string) returns (r: Result<Option<Expr>, ParseError>)
    requires ctx.index <= |ctx.symbols|
    ensures r == Answer(ClassFuncAt(ctx.symbols, ns, ctx.index))
  {
    if ns == "Model" {
      return Success(None);
    }
    var call := ParseFunctionCall(ctx);
    if call.Failure? {
      return Failure(call.error);
    }
    if call.value.Some? {
      assert false;
    }
    return Failure(InvalidNamespaceMember);
  }

  /** `parse_namespace` (values/namespaces.rs). */
  method ParseNamespace(ctx: Context) returns (r: Result<Option<Expr>, ParseError>)
    requires ctx.index <= |ctx.symbols|
    modifies ctx
    ensures Follows(r, NamespaceAt(ctx.symbols, old(ctx.index)), ctx.index)
    ensures ctx.vartable == old(ctx.vartable)
  {
    var sym := ctx.Get();
    if sym.Failure? {
      return Failure(UnexpectedEnd);
    }
    if !sym.value.LiteralSymb? {
      return Success(None);
    }
    var cchunk := sym.value.payload;
    var namespaces := ["Database", "Model", "ThreadPool"];
    for k := 0 to |namespaces|
      invariant cchunk !in namespaces[..k]
    {
      if cchunk == namespaces[k] {
        ctx.Increment();
        var acc := ctx.Get();
        if acc.Failure? {
          return Failure(UnexpectedEnd);
        }
        if acc.value.ClassAccessor? {
          ctx.Increment();
          r := ParseClassFunc(ctx, cchunk);
          return;
        } else if acc.value.ValueAccessor? {
          return Failure(WrongAccessor);
        }
        return Failure(ExpectedClassAccessor);
      }
    }
    assert namespaces[..|namespaces|] == namespaces;
    return Success(None);
  }

  // ---------------------------------------------------------------------
  // The recursive parsers

  /** `parse_secondary_expression` (expressions/secondary.rs). */
  method ParseSecondary(ctx: Context) returns (r: Result<Expr, ParseError>)
    requires ctx.index <= |ctx.symbols|
    modifies ctx
    ensures Follows(r, SecondaryAt(ctx.symbols, ctx.vartable, old(ctx.index)), ctx.index)
    ensures ctx.vartable == old(ctx.vartable)
    decreases |ctx.symbols| - ctx.index, 6
  {
    var val := PartialParse(ctx);
    if val.Failure? {
      return Failure(val.error);
    }
    if val.value.None? {
      return Failure(UnknownSecondaryExpression);
    }
    r := OrganizeSecondaryExpressionList(val.value.value);
  }

  /** `partial_parse_secondary_expression` (expressions/secondary.rs). */
  method PartialParse(ctx: Context) returns (r: Result<Option<seq<Intermediate>>, ParseError>)
    requires ctx.index <= |ctx.symbols|
    modifies ctx
    ensures Follows(r, PartialAt(ctx.symbols, ctx.vartable, old(ctx.index)), ctx.index)
    ensures ctx.vartable == old(ctx.vartable)
    decreases |ctx.symbols| - ctx.index, 5
  {
    var secexpr := ParseOperand(ctx);
    if secexpr.Failure? {
      return Failure(secexpr.error);
    }
    match secexpr.value
    case None =>
      return Success(None);
    case Some(x) =>
      var op := MatchOperatorSymbol(ctx);
      if op.Failure? {
        return Failure(op.error);
      }
      match op.value
      case None =>
        return Success(Some([SecondaryExpr(x)]));
      case Some(o) =>
        var v := [SecondaryExpr(x), Intermediate.Operator(o)];
        ctx.Increment();
        var n := PartialParse(ctx);
        if n.Failure? {
          return Failure(n.error);
        }
        if n.value.None? {
          return Failure(ExpectedExpressionAfterOperator);
        }
        return Success(Some(v + n.value.value));
  }

  /** The alternatives at the head of `partial_parse_secondary_expression`,
      in their order; a parenthesised expression leaves `found` unset. */
  method ParseOperand(ctx: Context) returns (r: Result<Option<Expr>, ParseError>)
    requires ctx.index <= |ctx.symbols|
    modifies ctx
    ensures Follows(r, OperandAt(ctx.symbols, ctx.vartable, old(ctx.index)), ctx.index)
    ensures ctx.vartable == old(ctx.vartable)
    decreases |ctx.symbols| - ctx.index, 4
  {
    var lit := ParseLiteral(ctx);
    if lit.Failure? {
      return Failure(lit.error);
    }
    if lit.value.Some? {
      return Success(Some(LiteralExpr(lit.value.value)));
    }
    var list := ParseList(ctx);
    if list.Failure? {
      return Failure(list.error);
    }
    if list.value.Some? {
      return Success(list.value);
    }
    var fmt := ParseFormat(ctx);
    match fmt
    case Failure(e) =>
      return Failure(e);
    case Success(Some(_)) =>
      // `Format::parse` never yields an expression (see `FormatAt`).
      assert false;
    case Success(None) =>
      var paren := ParseParentheses(ctx);
      if paren.Failure? {
        return Failure(paren.error);
      }
      r := ParseFallback(ctx, paren.value);
  }

  /** The last alternatives, tried whether or not parentheses were found:
      a namespace, then a variable reference, which replaces `secexpr`. */
  method ParseFallback(ctx: Context, secexpr: Option<Expr>) returns (r: Result<Option<Expr>, ParseError>)
    requires ctx.index <= |ctx.symbols|
    requires secexpr.Some? ==> GetType(secexpr.value).Success?
    modifies ctx
    ensures Follows(r, FallbackAt(ctx.symbols, ctx.vartable, secexpr, old(ctx.index)), ctx.index)
    ensures ctx.vartable == old(ctx.vartable)
  {
    var ns := ParseNamespace(ctx);
    if ns.Failure? {
      return Failure(ns.error);
    }
    if ns.value.Some? {
      // `parse_namespace` never yields an expression (see `NamespaceAt`).
      assert false;
    }
    var varref := ParseVariableRef(ctx);
    if varref.Failure? {
      return Failure(varref.error);
    }
    if varref.value.Some? {
      return Success(varref.value);
    }
    return Success(secexpr);
  }

  /** `Parentheses::parse` (expressions/secondary/parentheses.rs). */
  method ParseParentheses(ctx: Context) returns (r: Result<Option<Expr>, ParseError>)
    requires ctx.index <= |ctx.symbols|
    modifies ctx
    ensures Follows(r, ParenAt(ctx.symbols, ctx.vartable, old(ctx.index)), ctx.index)
    ensures ctx.vartable == old(ctx.vartable)
    decreases |ctx.symbols| - ctx.index, 3
  {
    var sym := ctx.Get();
    if sym.Failure? {
      return Failure(UnexpectedEnd);
    }
    if !sym.value.ParenOpen? {
      return Success(None);
    }
    ctx.Increment();
    var s := ParseSecondary(ctx);
    if s.Failure? {
      return Failure(s.error);
    }
    var close := ctx.Get();
    if close.Failure? {
      return Failure(UnexpectedEnd);
    }
    if close.value.ParenClose? {
      ctx.Increment();
      return Success(Some(ParenExpr(s.value)));
    }
    return Failure(ExpectedClosingParen);
  }

  /** `ListExpression::parse` (literals/basic/list.rs). */
  method ParseList(ctx: Context) returns (r: Result<Option<Expr>, ParseError>)
    requires ctx.index <= |ctx.symbols|
    modifies ctx
    ensures Follows(r, ListAt(ctx.symbols, ctx.vartable, old(ctx.index)), ctx.index)
    ensures ctx.vartable == old(ctx.vartable)
    decreases |ctx.symbols| - ctx.index, 3
  {
    var sym := ctx.Get();
    if sym.Failure? {
      return Failure(UnexpectedEnd);
    }
    if !sym.value.BracketOpen? {
      return Success(None);
    }
    var first := ParseElement(ctx);
    if first.Failure? {
      return Failure(first.error);
    }
    if !first.value.more {
      return Success(Some(ListExpr([], NoneType)));
    }
    r := ParseListRest(ctx, [first.value.expr.value], first.value.typ.value);
  }

  /** The element loop of `ListExpression::parse`, after the first
      element: `exprs` holds the elements read so far, all of type
      `origTyp`. */
  method ParseListRest(ctx: Context, exprs0: seq<Expr>, origTyp: ValueType) returns (r: Result<Option<Expr>, ParseError>)
    requires ctx.index < |ctx.symbols|
    requires forall k :: 0 <= k < |exprs0| ==> GetType(exprs0[k]) == Success(origTyp)
    modifies ctx
    ensures Follows(r, ListRestAt(ctx.symbols, ctx.vartable, old(ctx.index), exprs0, origTyp), ctx.index)
    ensures ctx.vartable == old(ctx.vartable)
    decreases |ctx.symbols| - ctx.index, 2
  {
    var exprs := exprs0;
    while true
      invariant ctx.index < |ctx.symbols| && ctx.vartable == old(ctx.vartable)
      invariant forall k :: 0 <= k < |exprs| ==> GetType(exprs[k]) == Success(origTyp)
      invariant ListRestAt(ctx.symbols, ctx.vartable, old(ctx.index), exprs0, origTyp) ==
                ListRestAt(ctx.symbols, ctx.vartable, ctx.index, exprs, origTyp)
      decreases |ctx.symbols| - ctx.index
    {
      var el := ParseElement(ctx);
      if el.Failure? {
        return Failure(el.error);
      }
      if el.value.expr.None? || el.value.typ.None? {
        return Failure(UnexpectedListPattern);
      }
      if origTyp != el.value.typ.value {
        return Failure(HeterogeneousList);
      }
      exprs := exprs + [el.value.expr.value];
      if !el.value.more {
        ctx.Increment();
        return Success(Some(ListExpr(exprs, origTyp)));
      }
    }
  }

  /** `ListExpression::parse_element` (literals/basic/list.rs). */
  method ParseElement(ctx: Context) returns (r: Result<Element, ParseError>)
    requires ctx.index < |ctx.symbols|
    modifies ctx
    ensures Follows(r, ElementAt(ctx.symbols, ctx.vartable, old(ctx.index)), ctx.index)
    ensures ctx.vartable == old(ctx.vartable)
    decreases |ctx.symbols| - ctx.index, 1
  {
    ctx.Increment();
    var sym := ctx.Get();
    if sym.Failure? {
      return Failure(UnexpectedEnd);
    }
    if sym.value.BracketClose? {
      return Success(Element(None, None, false));
    }
    var s := ParseSecondary(ctx);
    if s.Failure? {
      return Failure(s.error);
    }
    match GetType(s.value)
    case Failure(te) =>
      return Failure(Untyped(te));
    case Success(typ) =>
      var sep := ctx.Get();
      if sep.Failure? {
        return Failure(UnexpectedEnd);
      }
      if sep.value.BracketClose? {
        return Success(Element(Some(s.value), Some(typ), false));
      } else if sep.value.Comma? {
        return Success(Element(Some(s.value), Some(typ), true));
      }
      return Failure(ExpectedListSeparator);
  }
}
