/** The expression tree (expressions/primary.rs, expressions/secondary.rs
    and the files they dispatch to): secondary expressions, which compute
    a value, and primary expressions, which are statements. Their static
    types, the variable relations they report, the binary operators and
    the parse errors. */
module Expressions {
  import opened Wrappers
  import opened Values
  import opened Relations
  import Symbols

  /** `BinaryOperators`. */
  datatype BinaryOp = Add | Exponent | Multiply | Divide | Modulo | Sub | EqualityCheck

  /** `SecondaryExpression`: the expressions that compute a value. A list
      keeps its element type, a call keeps its function and its arguments,
      and a variable reference keeps the type recorded when it was parsed. */
  datatype Expr =
    | LiteralExpr(lit: Literal)
    | ListExpr(exprs: seq<Expr>, typ: ValueType)
    | BinaryOperation(lhs: Expr, rhs: Expr, op: BinaryOp)
    | CallResult(func: Func, args: seq<Expr>)
    | Reference(varname: string, typ: ValueType)
    | NoOpExpr
    | FormatExpr(exprs: seq<Expr>)
    | ParenExpr(inner: Expr)

  /** `Expression`: `let` statements, `return`, `print`/`println` and the
      end-of-input marker. */
  datatype Expression =
    | VariableTokenExpr(name: string, value: Expr)
    | ReturnExpr(expr: Expr)
    | PrintExpr(args: seq<Expr>)
    | EndParsingExpr

  /** The error `compare_lhs_rhs_type` reports: operand types that differ. */
  datatype TypeError = IncompatibleTypes(lhs: ValueType, rhs: ValueType, op: BinaryOp)

  /** Why a call does not fit a function: the messages of
      `match_signature`, `match_output` and `create_class_func_call`. */
  datatype SignatureError =
    | ArityMismatch
    | ArgumentMismatch(index: nat, given: ValueType, expected: ValueType)
    | ArgumentUntyped(err: TypeError)
    | OutputMismatch(given: ValueType, expected: ValueType)
    | FunctionNotFound(name: string)

  /** The reasons parsing stops (the parser's `panic!` calls). */
  datatype ParseError =
    | UnexpectedEnd
    | InvalidVarname(name: string)
    | ExpectedVariableName
    | ExpectedAssignment
    | ExpectedSemicolon
    | Untyped(err: TypeError)
    | OperandTypesDiffer(lhs: ValueType, rhs: ValueType)
    | NumberOperandsExpected(op: BinaryOp, lhs: ValueType, rhs: ValueType)
    | NotAnOperator(sym: Symbols.Symbol)
    | MalformedExpression
    | ExpectedExpressionAfterOperator
    | UnknownSecondaryExpression
    | ExpectedClosingParen
    | ExpectedListSeparator
    | HeterogeneousList
    | UnexpectedListPattern
    | WrongAccessor
    | ExpectedClassAccessor
    | InvalidNamespaceMember
    | NoSuchMember(name: string)
    | SignatureMismatch(sigErr: SignatureError)
    | ProgramExit
    | UnknownArgumentSeparator
    | UnknownCodeFragment

  /** `get_operator_order`: the operators in the order `organize` folds
      them (`/` appears twice). */
  const OperatorOrder: seq<Symbols.Symbol> := [
    Symbols.Exponent, Symbols.Multiply, Symbols.Divide, Symbols.Divide,
    Symbols.Modulus, Symbols.Add, Symbols.Sub, Symbols.EqualityCheck
  ]

  /** The order, entry by entry. */
  lemma OrderEntries()
    ensures |OperatorOrder| == 8
    ensures OperatorOrder[0] == Symbols.Exponent && OperatorOrder[1] == Symbols.Multiply
    ensures OperatorOrder[2] == Symbols.Divide && OperatorOrder[3] == Symbols.Divide
    ensures OperatorOrder[4] == Symbols.Modulus && OperatorOrder[5] == Symbols.Add
    ensures OperatorOrder[6] == Symbols.Sub && OperatorOrder[7] == Symbols.EqualityCheck
  {
  }

  /** `sym_to_binop`; `None` stands for its panic on any other symbol. */
  function SymToBinop(sym: Symbols.Symbol): (r: Option<BinaryOp>)
    ensures r.Some? <==> sym in OperatorOrder
    ensures r.Some? ==> BinopToSym(r.value) == sym
  {
    match sym
    case Exponent => Some(Exponent)
    case Multiply => Some(Multiply)
    case Divide => Some(Divide)
    case Modulus => Some(Modulo)
    case Add => Some(Add)
    case Sub => Some(Sub)
    case EqualityCheck => Some(EqualityCheck)
    case _ => None
  }

  /** `binop_to_sym`. */
  function BinopToSym(op: BinaryOp): (s: Symbols.Symbol)
    ensures s in OperatorOrder
  {
    match op
    case Add => Symbols.Add
    case Exponent => Symbols.Exponent
    case Multiply => Symbols.Multiply
    case Divide => Symbols.Divide
    case Modulo => Symbols.Modulus
    case Sub => Symbols.Sub
    case EqualityCheck => Symbols.EqualityCheck
  }

  /** The two maps are inverse to each other, and the symbols that name an
      operator are exactly those of the operator order. */
  lemma BinopSymbols(op: BinaryOp, sym: Symbols.Symbol)
    ensures SymToBinop(BinopToSym(op)) == Some(op)
    ensures SymToBinop(sym).Some? ==> BinopToSym(SymToBinop(sym).value) == sym
    ensures SymToBinop(sym).Some? <==> sym in OperatorOrder
  {
    BinopRoundTrip(op);
    SymbolRoundTrip(sym);
    OperatorsInOrder(sym);
  }

  lemma BinopRoundTrip(op: BinaryOp)
    ensures SymToBinop(BinopToSym(op)) == Some(op)
  {
  }

  lemma SymbolRoundTrip(sym: Symbols.Symbol)
    ensures SymToBinop(sym).Some? ==> BinopToSym(SymToBinop(sym).value) == sym
  {
  }

  lemma OperatorsInOrder(sym: Symbols.Symbol)
    ensures SymToBinop(sym).Some? <==> sym in OperatorOrder
  {
    if sym in OperatorOrder {
      var k :| 0 <= k < |OperatorOrder| && OperatorOrder[k] == sym;
      OrderNamesOperator(k);
    }
    if SymToBinop(sym).Some? {
      OperatorInOrder(sym);
    }
  }

  lemma OrderNamesOperator(k: nat)
    requires k < |OperatorOrder|
    ensures SymToBinop(OperatorOrder[k]).Some?
  {
    OrderEntries();
  }

  lemma OperatorInOrder(sym: Symbols.Symbol)
    requires SymToBinop(sym).Some?
    ensures sym in OperatorOrder
  {
    OrderEntries();
    var k := match sym
      case Exponent => 0
      case Multiply => 1
      case Divide => 2
      case Modulus => 4
      case Add => 5
      case Sub => 6
      case _ => 7;
    assert OperatorOrder[k] == sym;
  }

  /** `compare_lhs_rhs_type`: the left error first, then the right one,
      then the common type or a mismatch. */
  function CompareLhsRhsType(l: Result<ValueType, TypeError>, r: Result<ValueType, TypeError>, op: BinaryOp)
    : (t: Result<ValueType, TypeError>)
    ensures t.Success? <==> l.Success? && r.Success? && l.value == r.value
    ensures t.Success? ==> t.value == l.value
    ensures l.Failure? ==> t == l
    ensures l.Success? && r.Failure? ==> t == r
    ensures l.Success? && r.Success? && l.value != r.value ==> t == Failure(IncompatibleTypes(l.value, r.value, op))
  {
    match l
    case Failure(e) => Failure(e)
    case Success(lt) =>
      match r
      case Failure(e) => Failure(e)
      case Success(rt) => if lt == rt then Success(lt) else Failure(IncompatibleTypes(lt, rt, op))
  }

  /** `get_type` of each secondary expression. A binary operation has the
      type of its operands, `==` included. */
  function GetType(e: Expr): (t: Result<ValueType, TypeError>)
    ensures t.Failure? ==> e.BinaryOperation? || e.ParenExpr?
    ensures e.BinaryOperation? && t.Success? ==> GetType(e.lhs) == t && GetType(e.rhs) == t
  {
    match e
    case LiteralExpr(l) => Success(LiteralType(l))
    case ListExpr(_, t) => Success(ListType(t))
    case BinaryOperation(l, r, op) => CompareLhsRhsType(GetType(l), GetType(r), op)
    case CallResult(f, _) => Success(f.sig.output)
    case Reference(_, t) => Success(t)
    case NoOpExpr => Success(NoneType)
    case FormatExpr(_) => Success(StringType)
    case ParenExpr(i) => GetType(i)
  }

  /** Every binary operation inside has operands of one type. */
  predicate OperandsAgree(e: Expr) {
    match e
    case BinaryOperation(l, r, _) =>
      OperandsAgree(l) && OperandsAgree(r) && GetType(l).Success? && GetType(l) == GetType(r)
    case ParenExpr(i) => OperandsAgree(i)
    case _ => true
  }

  /** The type of a leaf: what `GetType` answers once the binary operations
      and parentheses on the leftmost path are looked through. */
  function LeftmostLeaf(e: Expr): Expr {
    match e
    case BinaryOperation(l, _, _) => LeftmostLeaf(l)
    case ParenExpr(i) => LeftmostLeaf(i)
    case _ => e
  }

  /** An expression has a type exactly when the operands of every binary
      operation in it agree, and that type is its leftmost leaf's type:
      the result of `==` is typed as its operands, not as a boolean. */
  lemma {:induction false} TypeIsLeftmostLeaf(e: Expr)
    ensures GetType(e).Success? <==> OperandsAgree(e)
    ensures GetType(e).Success? ==> GetType(e) == GetType(LeftmostLeaf(e))
    ensures !LeftmostLeaf(e).BinaryOperation? && !LeftmostLeaf(e).ParenExpr?
  {
    match e
    case BinaryOperation(l, r, _) =>
      TypeIsLeftmostLeaf(l);
      TypeIsLeftmostLeaf(r);
    case ParenExpr(i) =>
      TypeIsLeftmostLeaf(i);
    case _ =>
  }

  /** `get_fmt_relations`: one entry with no names holding every argument's
      relations, with the empty ones pruned. */
  function FmtRelations(es: seq<Expr>): (r: Result<seq<RelationEntry>, Fault>)
    ensures r.Failure? ==> r.error == NotImplemented
    decreases es, 1
  {
    match ArgReferences(es)
    case Success(rs) => Success([New([], [], rs)])
    case Failure(f) => Failure(f)
  }

  /** The relations of each argument, in order. */
  function ArgReferences(es: seq<Expr>): (r: Result<seq<RelationEntry>, Fault>)
    ensures r.Failure? ==> r.error == NotImplemented
    decreases es, 0
  {
    if es == [] then Success([])
    else
      match ArgReferences(es[..|es| - 1])
      case Failure(f) => Failure(f)
      case Success(a) =>
        match GetReferences(es[|es| - 1])
        case Failure(f) => Failure(f)
        case Success(b) => Success(a + b)
  }

  /** `get_references` of each secondary expression. A list has none
      written (`todo!()`, a fault); a binary operation lists the right
      operand's relations before the left one's; a call keeps its
      arguments' relations without pruning. */
  function GetReferences(e: Expr): (r: Result<seq<RelationEntry>, Fault>)
    ensures r.Failure? ==> r.error == NotImplemented
    ensures e.ListExpr? ==> r.Failure?
    decreases e, 2
  {
    match e
    case LiteralExpr(_) => Success([])
    case ListExpr(_, _) => Failure(NotImplemented)
    case BinaryOperation(l, r, _) =>
      (match GetReferences(r)
       case Failure(f) => Failure(f)
       case Success(a) =>
         match GetReferences(l)
         case Failure(f) => Failure(f)
         case Success(b) => Success(a + b))
    case CallResult(_, args) =>
      (match ArgReferences(args)
       case Success(rs) => Success([RelationEntry([], [], rs)])
       case Failure(f) => Failure(f))
    case Reference(n, _) => Success([New([], [n], [])])
    case NoOpExpr => Success([])
    case FormatExpr(es) => FmtRelations(es)
    case ParenExpr(i) => GetReferences(i)
  }

  /** `get_expr_references` of each primary expression: a `let` creates
      its name and holds the value's relations. */
  function ExprReferences(x: Expression): (r: Result<seq<RelationEntry>, Fault>)
    ensures r.Failure? ==> r.error == NotImplemented
    ensures x.VariableTokenExpr? && r.Success? ==> |r.value| == 1 && r.value[0].create == [x.name]
  {
    match x
    case VariableTokenExpr(n, v) =>
      (match GetReferences(v)
       case Success(rs) => Success([New([n], [], rs)])
       case Failure(f) => Failure(f))
    case ReturnExpr(e) => GetReferences(e)
    case PrintExpr(es) => FmtRelations(es)
    case EndParsingExpr => Success([])
  }

  /** The variables an expression reads, counted once per reference. */
  function Reads(e: Expr): multiset<string>
    decreases e, 1
  {
    match e
    case Reference(n, _) => multiset{n}
    case BinaryOperation(l, r, _) => Reads(l) + Reads(r)
    case ListExpr(es, _) => ReadsAll(es)
    case CallResult(_, args) => ReadsAll(args)
    case FormatExpr(es) => ReadsAll(es)
    case ParenExpr(i) => Reads(i)
    case _ => multiset{}
  }

  function ReadsAll(es: seq<Expr>): multiset<string>
    decreases es, 0
  {
    if es == [] then multiset{} else ReadsAll(es[..|es| - 1]) + Reads(es[|es| - 1])
  }

  /** A list expression occurs somewhere inside. */
  predicate HasList(e: Expr)
    decreases e, 1
  {
    match e
    case ListExpr(_, _) => true
    case BinaryOperation(l, r, _) => HasList(l) || HasList(r)
    case CallResult(_, args) => AnyHasList(args)
    case FormatExpr(es) => AnyHasList(es)
    case ParenExpr(i) => HasList(i)
    case _ => false
  }

  predicate AnyHasList(es: seq<Expr>)
    decreases es, 0
  {
    es != [] && (AnyHasList(es[..|es| - 1]) || HasList(es[|es| - 1]))
  }

  /** The relations of a secondary expression exist exactly when it holds
      no list, then create no name and reference exactly the variables the
      expression reads. */
  lemma {:induction false} ReferencesAreReads(e: Expr)
    ensures GetReferences(e).Success? <==> !HasList(e)
    ensures GetReferences(e).Success? ==>
              CreatesAll(GetReferences(e).value) == [] &&
              multiset(ReferencesAll(GetReferences(e).value)) == Reads(e)
    decreases e, 2
  {
    match e
    case LiteralExpr(_) =>
    case ListExpr(_, _) =>
    case BinaryOperation(l, r, _) =>
      ReferencesAreReads(l);
      ReferencesAreReads(r);
      if !HasList(e) {
        NamesAllAppend(GetReferences(r).value, GetReferences(l).value);
      }
    case CallResult(_, args) =>
      ArgReferencesAreReads(args);
      if !HasList(e) {
        NamesAllSingle(RelationEntry([], [], ArgReferences(args).value));
      }
    case Reference(n, _) =>
      NamesAllSingle(New([], [n], []));
    case NoOpExpr =>
    case FormatExpr(es) =>
      FmtRelationsAreReads(es);
    case ParenExpr(i) =>
      ReferencesAreReads(i);
  }

  /** The same for the one entry of `get_fmt_relations`. */
  lemma {:induction false} FmtRelationsAreReads(es: seq<Expr>)
    ensures FmtRelations(es).Success? <==> !AnyHasList(es)
    ensures FmtRelations(es).Success? ==>
              CreatesAll(FmtRelations(es).value) == [] &&
              multiset(ReferencesAll(FmtRelations(es).value)) == ReadsAll(es)
    decreases es, 1
  {
    ArgReferencesAreReads(es);
    if !AnyHasList(es) {
      var rs := ArgReferences(es).value;
      NamesAllSingle(New([], [], rs));
      NamesAllNonEmpty(rs);
    }
  }

  lemma {:induction false} ArgReferencesAreReads(es: seq<Expr>)
    ensures ArgReferences(es).Success? <==> !AnyHasList(es)
    ensures ArgReferences(es).Success? ==>
              CreatesAll(ArgReferences(es).value) == [] &&
              multiset(ReferencesAll(ArgReferences(es).value)) == ReadsAll(es)
    decreases es, 0
  {
    if es != [] {
      var p := es[..|es| - 1];
      var x := es[|es| - 1];
      ArgReferencesAreReads(p);
      ReferencesAreReads(x);
      if !AnyHasList(es) {
        NamesAllAppend(ArgReferences(p).value, GetReferences(x).value);
      }
    }
  }

  /** A `let` statement whose value holds no list creates exactly its own
      name and references exactly the variables its value reads. */
  lemma LetRelations(name: string, v: Expr)
    requires !HasList(v)
    ensures ExprReferences(VariableTokenExpr(name, v)).Success?
    ensures CreatesAll(ExprReferences(VariableTokenExpr(name, v)).value) == [name]
    ensures multiset(ReferencesAll(ExprReferences(VariableTokenExpr(name, v)).value)) == Reads(v)
  {
    ReferencesAreReads(v);
    var rs := GetReferences(v).value;
    NamesAllSingle(New([name], [], rs));
    NamesAllNonEmpty(rs);
  }
}
