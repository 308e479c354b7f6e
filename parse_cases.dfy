/** Concrete consequences of the parser as written, on symbol sequences
    the tokenizer produces for short programs. */
module ParseCases {
  import opened Wrappers
  import opened Symbols
  import opened Values
  import opened Expressions
  import opened Context
  import opened Grammar
  import opened Statements
  import opened Common
  import Ast

  /** The literal `1` is the number one. */
  lemma OneIsNumber(syms: seq<Symbol>, i: nat)
    requires i < |syms| && syms[i] == LiteralSymb("1")
    ensures LiteralAt(syms, i) == Success(Parsed(Some(Number(1)), Inc(syms, i)))
  {
    assert Peek(syms, i) == Success(LiteralSymb("1"));
    assert DigitsValue("1") == 1 by {
      assert "1"[..0] == "";
    }
  }

  /** The symbols of `(1) x` followed by a newline. */
  predicate ParenThenName(s: seq<Symbol>) {
    |s| == 6 && s[0] == ParenOpen && s[1] == LiteralSymb("1") && s[2] == ParenClose &&
    s[3] == Space && s[4] == LiteralSymb("x") && s[5] == NewLine
  }

  /** `(1)` is read as a parenthesised number, up to the space after it. */
  lemma ParenthesesRead(s: seq<Symbol>, v: map<string, ValueType>)
    requires ParenThenName(s)
    ensures ParenAt(s, v, 0) == Success(Parsed(Some(ParenExpr(LiteralExpr(Number(1)))), 4))
  {
    OrderEntries();
    assert Peek(s, 0) == Success(ParenOpen);
    assert Inc(s, 0) == 1;
    OneIsNumber(s, 1);
    assert OperandAt(s, v, 1) == Success(Parsed(Some(LiteralExpr(Number(1))), 2));
    assert Peek(s, 2) == Success(ParenClose);
    assert MatchOpAt(s, 2) == Success(None);
    SecondaryOfOperand(s, v, 1, LiteralExpr(Number(1)), 2);
    assert Inc(s, 2) == 4;
  }

  /** After a parenthesised expression the variable-reference alternative
      still runs, and what it finds replaces the parenthesised one: with
      `x` declared, `(1) x` is the operand `x`. */
  lemma ReferenceReplacesParentheses(s: seq<Symbol>, v: map<string, ValueType>)
    requires ParenThenName(s) && "x" in v
    ensures OperandAt(s, v, 0) == Success(Parsed(Some(Reference("x", v["x"])), 6))
  {
    ParenthesesRead(s, v);
    NameAfterParentheses(s);
    ReferenceOverridesParentheses(s, v, 0, ParenExpr(LiteralExpr(Number(1))), 4);
  }

  /** The name `x` follows the parentheses, and the newline after it is
      skipped with it. */
  lemma NameAfterParentheses(s: seq<Symbol>)
    requires ParenThenName(s)
    ensures Peek(s, 4) == Success(LiteralSymb("x")) && "x" !in Namespaces && Inc(s, 4) == 6
  {
    assert NextNonWs(s, 4) == 4;
  }

  // ---------------------------------------------------------------------
  // Lists in declarations

  /** A separator or closing symbol is not an operator. */
  predicate Closing(sym: Symbol) {
    sym.Comma? || sym.BracketClose? || sym.ParenClose? || sym.Semicolon?
  }

  lemma ClosingIsNoOperator(syms: seq<Symbol>, j: nat)
    requires j <= |syms| && Peek(syms, j).Success? && Closing(Peek(syms, j).value)
    ensures MatchOpAt(syms, j) == Success(None)
  {
    OrderEntries();
    var sym := Peek(syms, j).value;
    forall k | 0 <= k < |OperatorOrder|
      ensures OperatorOrder[k] != sym
    {
    }
  }

  /** A one-digit literal followed by a separator is a secondary
      expression on its own. */
  lemma DigitIsNumber(syms: seq<Symbol>, vars: map<string, ValueType>, i: nat, c: char)
    requires i < |syms| && syms[i] == LiteralSymb([c]) && '0' <= c <= '9'
    requires Peek(syms, Inc(syms, i)).Success? && Closing(Peek(syms, Inc(syms, i)).value)
    ensures SecondaryAt(syms, vars, i) ==
            Success(Parsed(LiteralExpr(Number(((c as int) - ('0' as int)) as I32)), Inc(syms, i)))
  {
    assert Peek(syms, i) == Success(LiteralSymb([c]));
    assert DigitsValue([c]) == (c as int) - ('0' as int) by {
      assert [c][..0] == "";
    }
    var n := ((c as int) - ('0' as int)) as I32;
    ClosingIsNoOperator(syms, Inc(syms, i));
    assert LiteralAt(syms, i) == Success(Parsed(Some(Number(n)), Inc(syms, i)));
    SecondaryOfOperand(syms, vars, i, LiteralExpr(Number(n)), Inc(syms, i));
  }

  /** The symbols of `let x = ` followed by a non-blank symbol. */
  predicate LetX(s: seq<Symbol>) {
    |s| > 6 && s[0] == Let && s[1] == Space && s[2] == LiteralSymb("x") && s[3] == Space &&
    s[4] == Equal && s[5] == Space && !IsWhitespace(s[6])
  }

  /** After `let x = `, the value is read from position 6, and then a `;`
      completes the declaration while any other symbol is an error. */
  lemma LetXReads(s: seq<Symbol>, v: map<string, ValueType>, value: Expr, m: nat)
    requires LetX(s) && SecondaryAt(s, v, 6) == Success(Parsed(value, m))
    ensures Peek(s, m) == Success(Semicolon) ==>
              VariableAt(s, v, 0) == Success(Parsed(Some(VariableTokenExpr("x", value)), Inc(s, m)))
    ensures Peek(s, m).Success? && !Peek(s, m).value.Semicolon? ==> VariableAt(s, v, 0) == Failure(ExpectedSemicolon)
  {
    LetXPositions(s);
    LetReads(s, v, 0, "x", value, m);
  }

  lemma LetXPositions(s: seq<Symbol>)
    requires LetX(s)
    ensures Peek(s, 0) == Success(Let) && Inc(s, 0) == 2
    ensures Peek(s, 2) == Success(LiteralSymb("x")) && Inc(s, 2) == 4 && IsVarnameValid("x")
    ensures Peek(s, 4) == Success(Equal) && Inc(s, 4) == 6
  {
  }

  /** The symbols of `let x = [1];` and a newline. */
  predicate SingleDecl(s: seq<Symbol>) {
    LetX(s) && |s| == 11 && s[6] == BracketOpen && s[7] == LiteralSymb("1") && s[8] == BracketClose &&
    s[9] == Semicolon && s[10] == NewLine
  }

  /** Where the cursor goes in `[1];`. */
  lemma SingletonPositions(s: seq<Symbol>)
    requires SingleDecl(s)
    ensures Peek(s, 6) == Success(BracketOpen) && Inc(s, 6) == 7
    ensures Peek(s, 7) == Success(LiteralSymb("1")) && Inc(s, 7) == 8
    ensures Peek(s, 8) == Success(BracketClose)
  {
  }

  /** `[1]` is read as the empty list, with the cursor left on its `]`. */
  lemma SingletonListIsEmpty(s: seq<Symbol>, v: map<string, ValueType>)
    requires SingleDecl(s)
    ensures SecondaryAt(s, v, 6) == Success(Parsed(ListExpr([], NoneType), 8))
  {
    SingletonPositions(s);
    DigitBeforeSeparator(s, v, 7, '1');
    SingletonReadsEmpty(s, v, 6, LiteralExpr(Number(1)), 8);
    ListOperand(s, v, 6, ListExpr([], NoneType), 8);
    ClosingIsNoOperator(s, 8);
    SecondaryOfOperand(s, v, 6, ListExpr([], NoneType), 8);
  }

  /** So `let x = [1];` is rejected: the `;` check finds the `]`. */
  lemma SingletonListBreaksDeclaration(s: seq<Symbol>, v: map<string, ValueType>, acc: seq<Expression>)
    requires SingleDecl(s)
    ensures ExprAt(s, v, 0) == Failure(ExpectedSemicolon)
    ensures ExprsFrom(s, v, 0, acc) == Failure(ExpectedSemicolon)
  {
    SingletonListIsEmpty(s, v);
    SingletonPositions(s);
    LetXReads(s, v, ListExpr([], NoneType), 8);
    LetXPositions(s);
    ExprsFromStep(s, v, 0, acc);
  }

  /** The symbols of `let x = [1, 2];` and a newline. */
  predicate PairDecl(s: seq<Symbol>) {
    LetX(s) && |s| == 14 && s[6] == BracketOpen && s[7] == LiteralSymb("1") && s[8] == Comma &&
    s[9] == Space && s[10] == LiteralSymb("2") && s[11] == BracketClose && s[12] == Semicolon && s[13] == NewLine
  }

  /** Where the cursor goes in `[1, 2];`. */
  lemma PairPositions(s: seq<Symbol>)
    requires PairDecl(s)
    ensures Peek(s, 6) == Success(BracketOpen) && Inc(s, 6) == 7
    ensures Peek(s, 7) == Success(LiteralSymb("1")) && Inc(s, 7) == 8
    ensures Peek(s, 8) == Success(Comma) && Inc(s, 8) == 10
    ensures Peek(s, 10) == Success(LiteralSymb("2")) && Inc(s, 10) == 11
    ensures Peek(s, 11) == Success(BracketClose) && Inc(s, 11) == 12
    ensures Peek(s, 12) == Success(Semicolon) && Inc(s, 12) == 14
  {
  }

  /** A digit directly followed by a separator is read as that number,
      and the cursor stops on the separator. */
  lemma DigitBeforeSeparator(s: seq<Symbol>, v: map<string, ValueType>, i: nat, c: char)
    requires i + 1 < |s| && s[i] == LiteralSymb([c]) && '0' <= c <= '9' && Closing(s[i + 1])
    ensures SecondaryAt(s, v, i) == Success(Parsed(LiteralExpr(Number(((c as int) - ('0' as int)) as I32)), i + 1))
  {
    assert Closing(s[i + 1]) ==> !IsWhitespace(s[i + 1]);
    assert Inc(s, i) == i + 1;
    assert NextNonWs(s, i + 1) == i + 1;
    DigitIsNumber(s, v, i, c);
  }

  /** `[1, 2]` is read whole as a list of numbers, and its `]` consumed. */
  lemma PairListAt(s: seq<Symbol>, v: map<string, ValueType>)
    requires PairDecl(s)
    ensures ListAt(s, v, 6) ==
            Success(Parsed(Some(ListExpr([LiteralExpr(Number(1)), LiteralExpr(Number(2))], NumberType)), 12))
  {
    var one, two := LiteralExpr(Number(1)), LiteralExpr(Number(2));
    PairPositions(s);
    DigitBeforeSeparator(s, v, 7, '1');
    DigitBeforeSeparator(s, v, 10, '2');
    ListContinues(s, v, 6, one, 8);
    ListRestLast(s, v, 8, [one], NumberType, two, 11);
    assert [one] + [two] == [one, two];
  }

  /** The list is the whole value of the declaration. */
  lemma PairListRead(s: seq<Symbol>, v: map<string, ValueType>)
    requires PairDecl(s)
    ensures SecondaryAt(s, v, 6) ==
            Success(Parsed(ListExpr([LiteralExpr(Number(1)), LiteralExpr(Number(2))], NumberType), 12))
  {
    var l := ListExpr([LiteralExpr(Number(1)), LiteralExpr(Number(2))], NumberType);
    PairPositions(s);
    PairListAt(s, v);
    ListOperand(s, v, 6, l, 12);
    ClosingIsNoOperator(s, 12);
    SecondaryOfOperand(s, v, 6, l, 12);
  }

  /** `let x = [1, 2];` is one declaration, read up to the end. */
  lemma PairStatement(s: seq<Symbol>, v: map<string, ValueType>)
    requires PairDecl(s)
    ensures ExprAt(s, v, 0) ==
            Success(Parsed(Some(VariableTokenExpr("x", ListExpr([LiteralExpr(Number(1)), LiteralExpr(Number(2))], NumberType))), 14))
  {
    PairListRead(s, v);
    PairPositions(s);
    LetXStatement(s, v, ListExpr([LiteralExpr(Number(1)), LiteralExpr(Number(2))], NumberType), 12);
  }

  /** A statement that starts with `let` is a declaration. */
  lemma LetStatement(syms: seq<Symbol>, vars: map<string, ValueType>, i: nat, d: Expression, j: nat)
    requires i <= |syms| && Peek(syms, i) == Success(Let) && VariableAt(syms, vars, i) == Success(Parsed(Some(d), j))
    ensures ExprAt(syms, vars, i) == Success(Parsed(Some(d), j))
  {
  }

  /** `let x = ` and a value followed by `;` is a declaration statement. */
  lemma LetXStatement(s: seq<Symbol>, v: map<string, ValueType>, value: Expr, m: nat)
    requires LetX(s) && SecondaryAt(s, v, 6) == Success(Parsed(value, m)) && Peek(s, m) == Success(Semicolon)
    ensures ExprAt(s, v, 0) == Success(Parsed(Some(VariableTokenExpr("x", value)), Inc(s, m)))
  {
    LetXReads(s, v, value, m);
    LetXPositions(s);
    LetStatement(s, v, 0, VariableTokenExpr("x", value), Inc(s, m));
  }

  /** A declaration read at `i` is kept and recorded, and the loop goes on
      after it. */
  lemma DeclarationKept(syms: seq<Symbol>, vars: map<string, ValueType>, i: nat, acc: seq<Expression>, d: Expression, j: nat)
    requires i <= |syms| && ExprAt(syms, vars, i) == Success(Parsed(Some(d), j)) && Declaration(d)
    ensures j <= |syms|
    ensures ExprsFrom(syms, vars, i, acc) == ExprsFrom(syms, vars[d.name := GetType(d.value).value], j, acc + [d])
  {
    ExprsFromStep(syms, vars, i, acc);
  }

  /** At the end of the symbols the loop stops with what it has. */
  lemma EndKeeps(syms: seq<Symbol>, vars: map<string, ValueType>, i: nat, acc: seq<Expression>)
    requires i <= |syms| && Peek(syms, i).Failure?
    ensures ExprsFrom(syms, vars, i, acc) == Success(Program(acc, vars))
  {
    ExprsFromStep(syms, vars, i, acc);
  }

  /** So `let x = [1, 2];` declares `x` as a list of numbers. */
  lemma PairListDeclares(s: seq<Symbol>, v: map<string, ValueType>, acc: seq<Expression>)
    requires PairDecl(s)
    ensures ExprsFrom(s, v, 0, acc) ==
            Success(Program(acc + [VariableTokenExpr("x", ListExpr([LiteralExpr(Number(1)), LiteralExpr(Number(2))], NumberType))],
                            v["x" := ListType(NumberType)]))
  {
    var l := ListExpr([LiteralExpr(Number(1)), LiteralExpr(Number(2))], NumberType);
    var d := VariableTokenExpr("x", l);
    PairStatement(s, v);
    assert IsVarnameValid("x") && GetType(l) == Success(ListType(NumberType));
    DeclarationKept(s, v, 0, acc, d, 14);
    assert Peek(s, 14).Failure?;
    EndKeeps(s, v["x" := ListType(NumberType)], 14, acc + [d]);
  }

  /** The program `let x = [1, 2];` parses, but `optimize_ast` then
      faults on it: lists have no relation entries. */
  lemma PairListStopsOptimizer(s: seq<Symbol>, v: map<string, ValueType>)
    requires PairDecl(s)
    ensures ExprsFrom(s, v, 0, []).Success?
    ensures Ast.ReferencesOf(ExprsFrom(s, v, 0, []).value.exprs).Failure?
  {
    PairListDeclares(s, v, []);
    Ast.ListDeclarationFaults(ExprsFrom(s, v, 0, []).value.exprs, 0);
  }
}
