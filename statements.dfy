/** The statement level of the parser: `let` declarations
    (expressions/primary/variable.rs), print statements
    (expressions/primary/print.rs), and the driver in eight.rs that skips
    comments, collects statements until the symbols run out, and records
    the type of every declared variable. */
module Statements {
  import opened Wrappers
  import opened Symbols
  import opened Values
  import opened Expressions
  import opened Context
  import opened Common
  import opened Util
  import opened Grammar
  import opened Parser
  import Lexing

  /** What a statement parser may yield: a declaration of a variable with
      a valid name and a value that has a static type. */
  predicate Declaration(x: Expression) {
    x.VariableTokenExpr? && IsVarnameValid(x.name) && GetType(x.value).Success?
  }

  /** The variable table after `out`: a declaration records the type of
      its value under its name; nothing else changes the table. */
  function Declared(vars: map<string, ValueType>, out: Option<Expression>): (r: map<string, ValueType>)
    ensures out.Some? && Declaration(out.value) ==>
              r == vars[out.value.name := GetType(out.value.value).value]
    ensures !(out.Some? && Declaration(out.value)) ==> r == vars
  {
    match out
    case Some(VariableTokenExpr(name, value)) =>
      if IsVarnameValid(name) && GetType(value).Success? then vars[name := GetType(value).value] else vars
    case _ => vars
  }

  /** `Variable::parse`: `let`, a valid name, `=`, a secondary expression
      and `;`. Without `let` nothing is parsed and the cursor stays; after
      it, every missing piece is an error. */
  function VariableAt(syms: seq<Symbol>, vars: map<string, ValueType>, i: nat): (r: Parse<Option<Expression>>)
    requires i <= |syms|
    ensures r.Success? && r.value.out.None? <==> Peek(syms, i).Success? && !Peek(syms, i).value.Let?
    ensures r.Success? && r.value.out.None? ==> r.value.next == i
    ensures r.Success? && r.value.out.Some? ==> i < r.value.next <= |syms| && Declaration(r.value.out.value)
  {
    match Current(syms, i)
    case Failure(e) => Failure(e)
    case Success(sym) =>
      if !sym.Let? then Success(Parsed(None, i))
      else
        var j := Inc(syms, i);
        match Current(syms, j)
        case Failure(e) => Failure(e)
        case Success(nameSym) =>
          if !nameSym.LiteralSymb? then Failure(ExpectedVariableName)
          else if !IsVarnameValid(nameSym.payload) then Failure(InvalidVarname(nameSym.payload))
          else
            var k := Inc(syms, j);
            match Current(syms, k)
            case Failure(e) => Failure(e)
            case Success(assign) =>
              if !assign.Equal? then Failure(ExpectedAssignment)
              else
                match SecondaryAt(syms, vars, Inc(syms, k))
                case Failure(e) => Failure(e)
                case Success(Parsed(value, m)) =>
                  match Current(syms, m)
                  case Failure(e) => Failure(e)
                  case Success(term) =>
                    if !term.Semicolon? then Failure(ExpectedSemicolon)
                    else
                      match GetType(value)
                      case Failure(te) => Failure(Untyped(te))
                      case Success(_) => Success(Parsed(Some(VariableTokenExpr(nameSym.payload, value)), Inc(syms, m)))
  }

  /** Once `let`, a valid name and `=` are read, the value decides: a `;`
      after it completes the declaration, and any other symbol there is
      an error. */
  lemma LetReads(syms: seq<Symbol>, vars: map<string, ValueType>, i: nat, name: string, value: Expr, m: nat)
    requires i <= |syms| && Peek(syms, i) == Success(Let)
    requires Peek(syms, Inc(syms, i)) == Success(LiteralSymb(name)) && IsVarnameValid(name)
    requires Peek(syms, Inc(syms, Inc(syms, i))) == Success(Equal)
    requires SecondaryAt(syms, vars, Inc(syms, Inc(syms, Inc(syms, i)))) == Success(Parsed(value, m))
    ensures Peek(syms, m) == Success(Semicolon) ==>
              VariableAt(syms, vars, i) == Success(Parsed(Some(VariableTokenExpr(name, value)), Inc(syms, m)))
    ensures Peek(syms, m).Success? && !Peek(syms, m).value.Semicolon? ==>
              VariableAt(syms, vars, i) == Failure(ExpectedSemicolon)
  {
  }

  /** `Print::parse`: it needs a parsed function call, and none is ever
      parsed, so it yields nothing and leaves the cursor in place. */
  function PrintAt(syms: seq<Symbol>, i: nat): (r: Parse<Option<Expression>>)
    requires i <= |syms|
    ensures r.Success? <==> Peek(syms, i).Success?
    ensures r.Success? ==> r == Success(Parsed(None, i))
  {
    match FunctionCallAt(syms, i)
    case Failure(e) => Failure(e)
    case Success(_) => Success(Parsed(None, i))
  }

  /** `parse_expr`: the end of the symbols yields the end marker; a
      comment is skipped and yields nothing; otherwise a declaration, then
      a print statement, and anything else is an unknown code fragment. */
  function ExprAt(syms: seq<Symbol>, vars: map<string, ValueType>, i: nat): (r: Parse<Option<Expression>>)
    requires i <= |syms|
    ensures Peek(syms, i).Failure? <==> r == Success(Parsed(Some(EndParsingExpr), i))
    ensures r.Success? ==> r.value.next <= |syms|
    ensures r.Success? && r.value.out != Some(EndParsingExpr) ==>
              i < r.value.next && (r.value.out.Some? ==> Declaration(r.value.out.value))
  {
    match Peek(syms, i)
    case Failure(_) => Success(Parsed(Some(EndParsingExpr), i))
    case Success(sym) =>
      if sym.MultiCommentStart? then
        match ConsumeSymFrom(syms, Inc(syms, i), MultiCommentEnd)
        case Failure(_) => Failure(UnexpectedEnd)
        case Success(j) => Success(Parsed(None, j))
      else if sym.SingleComment? then
        match ConsumeTypeFrom(syms, Inc(syms, i), Newline)
        case Failure(_) => Failure(UnexpectedEnd)
        case Success(j) => Success(Parsed(None, j))
      else
        match VariableAt(syms, vars, i)
        case Failure(e) => Failure(e)
        case Success(Parsed(Some(x), j)) => Success(Parsed(Some(x), j))
        case Success(Parsed(None, j)) =>
          match PrintAt(syms, j)
          case Failure(e) => Failure(e)
          case Success(Parsed(Some(p), k)) => Success(Parsed(Some(p), k))
          case Success(Parsed(None, _)) => Failure(UnknownCodeFragment)
  }

  /** The statements of a program and the variable table they leave. */
  datatype Program = Program(exprs: seq<Expression>, vars: map<string, ValueType>)

  /** The loop of `parse_exprs` from position `i`, with the statements
      `acc` collected so far and the table `vars`. */
  function ExprsFrom(syms: seq<Symbol>, vars: map<string, ValueType>, i: nat, acc: seq<Expression>)
    : (r: Result<Program, ParseError>)
    requires i <= |syms|
    decreases |syms| - i
  {
    match ExprAt(syms, vars, i)
    case Failure(e) => Failure(e)
    case Success(p) =>
      if p.out == Some(EndParsingExpr) then Success(Program(acc, vars))
      else ExprsFrom(syms, Declared(vars, p.out), p.next, Kept(acc, p.out))
  }

  /** The statements collected, with `out` appended when there is one. */
  function Kept(acc: seq<Expression>, out: Option<Expression>): seq<Expression> {
    if out.Some? then acc + [out.value] else acc
  }

  /** The names the statements `xs` declare. */
  function DeclaredNames(xs: seq<Expression>): set<string> {
    if xs == [] then {}
    else (if xs[0].VariableTokenExpr? then {xs[0].name} else {}) + DeclaredNames(xs[1..])
  }

  /** One step of the loop: an error ends it, the end marker ends it with
      the statements collected, and any other outcome is kept, its
      declaration recorded, and the loop goes on after it. */
  lemma ExprsFromStep(syms: seq<Symbol>, vars: map<string, ValueType>, i: nat, acc: seq<Expression>)
    requires i <= |syms|
    ensures ExprAt(syms, vars, i).Failure? ==> ExprsFrom(syms, vars, i, acc) == Failure(ExprAt(syms, vars, i).error)
    ensures ExprAt(syms, vars, i) == Success(Parsed(Some(EndParsingExpr), i)) ==>
              ExprsFrom(syms, vars, i, acc) == Success(Program(acc, vars))
    ensures ExprAt(syms, vars, i).Success? && ExprAt(syms, vars, i).value.out != Some(EndParsingExpr) ==>
              var p := ExprAt(syms, vars, i).value;
              i < p.next <= |syms| &&
              ExprsFrom(syms, vars, i, acc) == ExprsFrom(syms, Declared(vars, p.out), p.next, Kept(acc, p.out))
  {
  }

  /** A statement that starts with neither `let` nor a comment is an
      unknown code fragment, and parsing stops there: a print statement
      among them, since its function call is never parsed. */
  lemma OnlyDeclarationsParse(syms: seq<Symbol>, vars: map<string, ValueType>, i: nat, acc: seq<Expression>)
    requires i <= |syms| && Peek(syms, i).Success?
    requires !Peek(syms, i).value.Let? && !Peek(syms, i).value.MultiCommentStart? && !Peek(syms, i).value.SingleComment?
    ensures ExprAt(syms, vars, i) == Failure(UnknownCodeFragment)
    ensures ExprsFrom(syms, vars, i, acc) == Failure(UnknownCodeFragment)
  {
    ExprsFromStep(syms, vars, i, acc);
  }

  /** What `parse_exprs` builds is made of declarations only: every
      statement it keeps is a `let` with a valid name and a typed value,
      after the statements it already had. */
  lemma {:induction false} ExprsFromDeclares(syms: seq<Symbol>, vars: map<string, ValueType>, i: nat, acc: seq<Expression>)
    requires i <= |syms|
    requires forall k :: 0 <= k < |acc| ==> Declaration(acc[k])
    ensures var r := ExprsFrom(syms, vars, i, acc);
      r.Success? ==>
        |r.value.exprs| >= |acc| && r.value.exprs[..|acc|] == acc &&
        forall k :: 0 <= k < |r.value.exprs| ==> Declaration(r.value.exprs[k])
    decreases |syms| - i
  {
    if ExprAt(syms, vars, i).Success? && ExprAt(syms, vars, i).value.out != Some(EndParsingExpr) {
      var p := ExprAt(syms, vars, i).value;
      ExprsFromStep(syms, vars, i, acc);
      var acc' := Kept(acc, p.out);
      ExprsFromDeclares(syms, Declared(vars, p.out), p.next, acc');
      var r := ExprsFrom(syms, vars, i, acc);
      if r.Success? {
        assert acc'[..|acc|] == acc;
        assert r.value.exprs[..|acc|] == r.value.exprs[..|acc'|][..|acc|];
      }
    }
  }

  /** The table `parse_exprs` leaves holds exactly the names known at the
      start and the names of the statements it added. */
  lemma {:induction false} ExprsFromTable(syms: seq<Symbol>, vars: map<string, ValueType>, i: nat, acc: seq<Expression>)
    requires i <= |syms|
    requires forall k :: 0 <= k < |acc| ==> Declaration(acc[k])
    ensures var r := ExprsFrom(syms, vars, i, acc);
      r.Success? ==>
        |r.value.exprs| >= |acc| &&
        r.value.vars.Keys == vars.Keys + DeclaredNames(r.value.exprs[|acc|..])
    decreases |syms| - i
  {
    var r := ExprsFrom(syms, vars, i, acc);
    ExprsFromStep(syms, vars, i, acc);
    if r.Success? {
      var p := ExprAt(syms, vars, i).value;
      if p.out == Some(EndParsingExpr) {
        assert r.value.exprs[|acc|..] == [];
      } else {
        var acc' := Kept(acc, p.out);
        ExprsFromTable(syms, Declared(vars, p.out), p.next, acc');
        ExprsFromDeclares(syms, Declared(vars, p.out), p.next, acc');
        KeysStep(vars, acc, p.out, r.value.exprs, r.value.vars.Keys);
      }
    }
  }

  /** Recording one statement's declaration adds its name to the table. */
  lemma KeysStep(vars: map<string, ValueType>, acc: seq<Expression>, out: Option<Expression>, exprs: seq<Expression>,
                 keys: set<string>)
    requires out.Some? ==> Declaration(out.value)
    requires |exprs| >= |Kept(acc, out)| && exprs[..|Kept(acc, out)|] == Kept(acc, out)
    requires keys == Declared(vars, out).Keys + DeclaredNames(exprs[|Kept(acc, out)|..])
    ensures keys == vars.Keys + DeclaredNames(exprs[|acc|..])
  {
    var tail := exprs[|acc|..];
    if out.Some? {
      assert tail[0] == exprs[..|acc| + 1][|acc|] == out.value;
      assert tail[1..] == exprs[|acc| + 1..];
    }
  }

  /** The failures of the whole pipeline: the tokenizer's or the parser's. */
  datatype ProgramError = LexFailure(lex: Lexing.LexError) | ParseFailure(parse: ParseError)

  /** `start_parse`: tokenize the code with a newline appended, then parse
      statements from the first symbol with an empty variable table. */
  function ParseProgram(code: string): (r: Result<Program, ProgramError>)
    requires |code| + 1 < UsizeMax
  {
    match Lexing.LexFrom(code + "\n", 0)
    case Failure(e) => Failure(LexFailure(e))
    case Success(syms) =>
      match ExprsFrom(syms, map[], 0, [])
      case Failure(e) => Failure(ParseFailure(e))
      case Success(p) => Success(p)
  }

  /** A program that parses is a list of declarations, and its table
      holds exactly the names it declares. */
  lemma ProgramsAreDeclarations(code: string)
    requires |code| + 1 < UsizeMax
    ensures ParseProgram(code).Success? ==>
              (forall k :: 0 <= k < |ParseProgram(code).value.exprs| ==> Declaration(ParseProgram(code).value.exprs[k])) &&
              ParseProgram(code).value.vars.Keys == DeclaredNames(ParseProgram(code).value.exprs)
  {
    var lexed := Lexing.LexFrom(code + "\n", 0);
    if lexed.Success? {
      ExprsFromDeclares(lexed.value, map[], 0, []);
      ExprsFromTable(lexed.value, map[], 0, []);
      if ParseProgram(code).Success? {
        assert ParseProgram(code).value.exprs[0..] == ParseProgram(code).value.exprs;
      }
    }
  }

  // ---------------------------------------------------------------------
  // The methods

  /** `Variable::parse`; a declaration also records its type with
      `put_var`. */
  method ParseVariable(ctx: Context) returns (r: Result<Option<Expression>, ParseError>)
    requires ctx.index <= |ctx.symbols|
    modifies ctx
    ensures Follows(r, VariableAt(ctx.symbols, old(ctx.vartable), old(ctx.index)), ctx.index)
    ensures var spec := VariableAt(ctx.symbols, old(ctx.vartable), old(ctx.index));
      spec.Success? ==> ctx.vartable == Declared(old(ctx.vartable), spec.value.out)
  {
    var sym := ctx.Get();
    if sym.Failure? {
      return Failure(UnexpectedEnd);
    }
    if !sym.value.Let? {
      return Success(None);
    }
    ctx.Increment();
    var nameSym := ctx.Get();
    if nameSym.Failure? {
      return Failure(UnexpectedEnd);
    }
    if !nameSym.value.LiteralSymb? {
      return Failure(ExpectedVariableName);
    }
    var name := nameSym.value.payload;
    if !IsVarnameValid(name) {
      return Failure(InvalidVarname(name));
    }
    ctx.Increment();
    var assign := ctx.Get();
    if assign.Failure? {
      return Failure(UnexpectedEnd);
    }
    if !assign.value.Equal? {
      return Failure(ExpectedAssignment);
    }
    ctx.Increment();
    var nextExpr := ParseSecondary(ctx);
    if nextExpr.Failure? {
      return Failure(nextExpr.error);
    }
    var endExpr := ctx.Get();
    if endExpr.Failure? {
      return Failure(UnexpectedEnd);
    }
    if !endExpr.value.Semicolon? {
      return Failure(ExpectedSemicolon);
    }
    ctx.Increment();
    match GetType(nextExpr.value)
    case Failure(te) =>
      return Failure(Untyped(te));
    case Success(typ) =>
      ctx.PutVar(name, typ);
      return Success(Some(VariableTokenExpr(name, nextExpr.value)));
  }

  /** `Print::parse`: no call is ever parsed, so the branch that would
      accept `print(...)` or `println(...)` and a `;` is never reached. */
  method ParsePrint(ctx: Context) returns (r: Result<Option<Expression>, ParseError>)
    requires ctx.index <= |ctx.symbols|
    modifies ctx
    ensures Follows(r, PrintAt(ctx.symbols, old(ctx.index)), ctx.index)
    ensures ctx.vartable == old(ctx.vartable)
  {
    var call := ParseFunctionCall(ctx);
    match call
    case Failure(e) =>
      return Failure(e);
    case Success(None) =>
      return Success(None);
    case Success(Some(_)) =>
      assert false;
  }

  /** `parse_expr`. */
  method ParseExpr(ctx: Context) returns (r: Result<Option<Expression>, ParseError>)
    requires ctx.index <= |ctx.symbols|
    modifies ctx
    ensures Follows(r, ExprAt(ctx.symbols, old(ctx.vartable), old(ctx.index)), ctx.index)
    ensures var spec := ExprAt(ctx.symbols, old(ctx.vartable), old(ctx.index));
      spec.Success? ==> ctx.vartable == Declared(old(ctx.vartable), spec.value.out)
  {
    var symbol := ctx.GetSafe();
    if symbol.Failure? {
      return Success(Some(EndParsingExpr));
    }
    if symbol.value == MultiCommentStart {
      ctx.Increment();
      var consumed := ConsumeUntilSymbol(ctx, MultiCommentEnd);
      if consumed.Failure? {
        return Failure(UnexpectedEnd);
      }
      return Success(None);
    }
    if symbol.value == SingleComment {
      ctx.Increment();
      var consumed := ConsumeUntilSymbolType(ctx, Newline);
      if consumed.Failure? {
        return Failure(UnexpectedEnd);
      }
      return Success(None);
    }
    var variable := ParseVariable(ctx);
    match variable
    case Failure(e) =>
      return Failure(e);
    case Success(Some(x)) =>
      return Success(Some(x));
    case Success(None) =>
      var printed := ParsePrint(ctx);
      match printed
      case Failure(e) =>
        return Failure(e);
      case Success(Some(p)) =>
        return Success(Some(p));
      case Success(None) =>
        return Failure(UnknownCodeFragment);
  }

  /** `parse_exprs`: statements until the end marker; the type of every
      declaration is recorded in the variable table once more. */
  method ParseExprs(ctx: Context) returns (r: Result<seq<Expression>, ParseError>)
    requires ctx.index <= |ctx.symbols|
    modifies ctx
    ensures var spec := ExprsFrom(ctx.symbols, old(ctx.vartable), old(ctx.index), []);
      r.Success? == spec.Success? &&
      (r.Success? ==> r.value == spec.value.exprs && ctx.vartable == spec.value.vars) &&
      (r.Failure? ==> r.error == spec.error)
  {
    var exprs := [];
    while true
      invariant ctx.index <= |ctx.symbols|
      invariant ExprsFrom(ctx.symbols, old(ctx.vartable), old(ctx.index), []) ==
                ExprsFrom(ctx.symbols, ctx.vartable, ctx.index, exprs)
      decreases |ctx.symbols| - ctx.index
    {
      ghost var vars, at := ctx.vartable, ctx.index;
      ExprsFromStep(ctx.symbols, vars, at, exprs);
      var expr := ParseExpr(ctx);
      if expr.Failure? {
        return Failure(expr.error);
      }
      var x := expr.value;
      if x == Some(EndParsingExpr) {
        return Success(exprs);
      }
      if x.Some? && x.value.VariableTokenExpr? {
        match GetType(x.value.value) {
          case Failure(te) =>
            return Failure(Untyped(te));
          case Success(typ) =>
            ctx.vartable := ctx.vartable[x.value.name := typ];
        }
      }
      assert ctx.vartable == Declared(vars, x);
      exprs := Kept(exprs, x);
    }
  }

  /** `start_parse`. */
  method StartParse(code: string) returns (r: Result<seq<Expression>, ProgramError>)
    requires |code| + 1 < UsizeMax
    ensures var spec := ParseProgram(code);
      r.Success? == spec.Success? &&
      (r.Success? ==> r.value == spec.value.exprs) &&
      (r.Failure? ==> r.error == spec.error)
  {
    var symbols := Lexing.Parse(code + "\n");
    if symbols.Failure? {
      return Failure(LexFailure(symbols.error));
    }
    var context := new Context(code, symbols.value, 0);
    var exprs := ParseExprs(context);
    if exprs.Failure? {
      return Failure(ParseFailure(exprs.error));
    }
    return Success(exprs.value);
  }
}
