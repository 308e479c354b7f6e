/** Operator precedence (`organize_secondary_expression_list` in
    expressions/secondary.rs, with `split_lhs_rhs` from
    secondary/operators.rs and `BinaryOperator::parse` from
    secondary/operators/binary.rs): a flat list of operands and operators
    is folded into one expression tree, one operator of the order at a
    time, leftmost occurrence first. */
module Organize {
  import opened Wrappers
  import opened Values
  import opened Expressions
  import Symbols
  import opened Seqs

  /** `IntermediateExpression`: what the partial parser produces. */
  datatype Intermediate = Operator(sym: Symbols.Symbol) | SecondaryExpr(expr: Expr)

  /** `TransitionExpression`: the list `organize` works on. */
  datatype Transition = InterExpr(inter: Intermediate) | TransExpr(expr: Expr)

  function ToTransitionOne(x: Intermediate): Transition {
    if x.SecondaryExpr? then TransExpr(x.expr) else InterExpr(x)
  }

  /** The first loop of `organize`: operands become `TransExpr`, operators
      stay intermediate. */
  function ToTransition(l: seq<Intermediate>): (r: seq<Transition>)
    ensures |r| == |l|
    ensures forall i :: 0 <= i < |l| ==> r[i] == ToTransitionOne(l[i])
  {
    if l == [] then [] else ToTransition(l[..|l| - 1]) + [ToTransitionOne(l[|l| - 1])]
  }

  /** After the first loop no operand is left intermediate, which is why
      the expression-count limit of `organize` is never reached: it counts
      only intermediate operands. */
  lemma TransitionLeavesNoIntermediateOperand(l: seq<Intermediate>)
    ensures forall i :: 0 <= i < |l| ==>
              !(ToTransition(l)[i].InterExpr? && ToTransition(l)[i].inter.SecondaryExpr?)
    ensures forall i :: 0 <= i < |l| ==> (ToTransition(l)[i].TransExpr? <==> l[i].SecondaryExpr?)
  {
  }

  /** `unwrap_trans_expr`: an operand, or a panic on an operator. */
  function Unwrap(t: Transition): (r: Result<Expr, ParseError>)
    ensures r.Success? <==> t.TransExpr?
  {
    if t.TransExpr? then Success(t.expr) else Failure(MalformedExpression)
  }

  /** `split_lhs_rhs`: removes the operands on each side of the operator at
      `idx` and the operator itself, and gives the position the combined
      expression goes back to. Removing past the end, or an index below
      zero, is a panic. */
  function SplitLhsRhs(list: seq<Transition>, idx: nat): (r: Result<(Expr, Expr, seq<Transition>, nat), ParseError>)
    ensures r.Success? <==>
              1 <= idx && idx + 1 < |list| && list[idx - 1].TransExpr? && list[idx + 1].TransExpr?
    ensures r.Success? ==>
              r.value == (list[idx - 1].expr, list[idx + 1].expr, list[..idx - 1] + list[idx + 2..], idx - 1)
  {
    if idx + 1 >= |list| then Failure(MalformedExpression)
    else
      match Unwrap(list[idx + 1])
      case Failure(e) => Failure(e)
      case Success(rhs) =>
        if idx == 0 then Failure(MalformedExpression)
        else
          match Unwrap(list[idx - 1])
          case Failure(e) => Failure(e)
          case Success(lhs) =>
            var rest := list[..idx - 1] + list[idx + 2..];
            Success((lhs, rhs, rest, if idx - 1 <= |rest| then idx - 1 else |rest|))
  }

  /** `BinaryOperator::parse`: both operands must have a type; `==` needs
      the same type on both sides, the other operators need two numbers.
      The binary operation replaces the three items. */
  function BinaryParse(list: seq<Transition>, idx: nat, op: BinaryOp): (r: Result<seq<Transition>, ParseError>)
    ensures r.Success? ==> |r.value| == |list| - 2
    ensures r.Success? ==>
              SplitLhsRhs(list, idx).Success? &&
              r.value == list[..idx - 1] + [TransExpr(BinaryOperation(list[idx - 1].expr, list[idx + 1].expr, op))] + list[idx + 2..]
    ensures SplitLhsRhs(list, idx).Success? && r.Failure? ==>
              r.error.Untyped? || r.error.OperandTypesDiffer? || r.error.NumberOperandsExpected?
  {
    match SplitLhsRhs(list, idx)
    case Failure(e) => Failure(e)
    case Success((lhs, rhs, rest, iidx)) =>
      match GetType(lhs)
      case Failure(te) => Failure(Untyped(te))
      case Success(lt) =>
        match GetType(rhs)
        case Failure(te) => Failure(Untyped(te))
        case Success(rt) =>
          if op == EqualityCheck && rt != lt then Failure(OperandTypesDiffer(lt, rt))
          else if op != EqualityCheck && (lt != NumberType || rt != NumberType) then Failure(NumberOperandsExpected(op, lt, rt))
          else Success(rest[..iidx] + [TransExpr(BinaryOperation(lhs, rhs, op))] + rest[iidx..])
  }

  /** The leftmost occurrence of the operator at or after `from`. */
  function FindOperator(list: seq<Transition>, sym: Symbols.Symbol, from: nat): (r: Option<nat>)
    requires from <= |list|
    ensures r.Some? ==> from <= r.value < |list| && list[r.value] == InterExpr(Operator(sym))
    ensures r.Some? ==> forall j :: from <= j < r.value ==> list[j] != InterExpr(Operator(sym))
    ensures r.None? ==> forall j :: from <= j < |list| ==> list[j] != InterExpr(Operator(sym))
    decreases |list| - from
  {
    if from == |list| then None
    else if list[from] == InterExpr(Operator(sym)) then Some(from)
    else FindOperator(list, sym, from + 1)
  }

  /** The inner loop of `organize` for one operator: fold its leftmost
      occurrence until none is left. */
  function FoldOperator(list: seq<Transition>, sym: Symbols.Symbol): Result<seq<Transition>, ParseError>
    requires sym in OperatorOrder
    decreases |list|
  {
    match FindOperator(list, sym, 0)
    case None => Success(list)
    case Some(i) =>
      BinopSymbols(Add, sym);
      match BinaryParse(list, i, SymToBinop(sym).value)
      case Failure(e) => Failure(e)
      case Success(l) => FoldOperator(l, sym)
  }

  /** The outer loop of `organize`: the operators of the order from the
      `k`-th on. */
  function FoldFrom(list: seq<Transition>, k: nat): Result<seq<Transition>, ParseError>
    requires k <= |OperatorOrder|
    decreases |OperatorOrder| - k
  {
    if k == |OperatorOrder| then Success(list)
    else
      match FoldOperator(list, OperatorOrder[k])
      case Failure(e) => Failure(e)
      case Success(l) => FoldFrom(l, k + 1)
  }

  function FoldRest(r: Result<seq<Transition>, ParseError>, k: nat): Result<seq<Transition>, ParseError>
    requires k <= |OperatorOrder|
  {
    match r
    case Failure(e) => Failure(e)
    case Success(l) => FoldFrom(l, k)
  }

  /** The last item, which must be the only one: an operand, or a panic. */
  function FinalValue(list: seq<Transition>): Result<Expr, ParseError> {
    if |list| != 1 then Failure(MalformedExpression)
    else
      match list[0]
      case TransExpr(e) => Success(e)
      case InterExpr(SecondaryExpr(s)) => Success(s)
      case InterExpr(Operator(_)) => Failure(MalformedExpression)
  }

  /** `organize_secondary_expression_list` as a value. */
  function Organize(l: seq<Intermediate>): Result<Expr, ParseError> {
    match FoldFrom(ToTransition(l), 0)
    case Failure(e) => Failure(e)
    case Success(r) => FinalValue(r)
  }

  /** The scan of `organize` for the leftmost occurrence of `sym`. */
  method FindOp(list: seq<Transition>, sym: Symbols.Symbol) returns (found: bool, foundIdx: nat)
    ensures found <==> FindOperator(list, sym, 0).Some?
    ensures found ==> foundIdx == FindOperator(list, sym, 0).value
  {
    found, foundIdx := false, 0;
    for idx := 0 to |list|
      invariant FindOperator(list, sym, 0) == FindOperator(list, sym, idx)
    {
      if list[idx] == InterExpr(Operator(sym)) {
        return true, idx;
      }
    }
  }

  /** `organize_secondary_expression_list`. */
  method OrganizeSecondaryExpressionList(exprList: seq<Intermediate>) returns (r: Result<Expr, ParseError>)
    ensures r == Organize(exprList)
  {
    var expressionList: seq<Transition> := [];
    for i := 0 to |exprList|
      invariant expressionList == ToTransition(exprList[..i])
    {
      ToTransitionSnoc(exprList, i);
      expressionList := expressionList + [ToTransitionOne(exprList[i])];
    }
    assert exprList[..|exprList|] == exprList;
    ghost var target := FoldFrom(expressionList, 0);
    for k := 0 to |OperatorOrder|
      invariant target == FoldFrom(expressionList, k)
    {
      var op := OperatorOrder[k];
      FoldFromStep(expressionList, k);
      while true
        invariant target == FoldRest(FoldOperator(expressionList, op), k + 1)
        decreases |expressionList|
      {
        var found, foundIdx := FindOp(expressionList, op);
        FoldOperatorStep(expressionList, op);
        if !found {
          break;
        }
        BinopSymbols(Add, op);
        var p := BinaryParse(expressionList, foundIdx, SymToBinop(op).value);
        if p.Failure? {
          return Failure(p.error);
        }
        expressionList := p.value;
      }
    }
    r := FinalValue(expressionList);
  }

  lemma ToTransitionSnoc(l: seq<Intermediate>, i: nat)
    requires i < |l|
    ensures ToTransition(l[..i + 1]) == ToTransition(l[..i]) + [ToTransitionOne(l[i])]
  {
    assert l[..i + 1][..i] == l[..i];
  }

  /** One round of the outer loop: the operator of the order at `k`, then
      the rest of the order. */
  lemma FoldFromStep(list: seq<Transition>, k: nat)
    requires k < |OperatorOrder|
    ensures FoldFrom(list, k) == FoldRest(FoldOperator(list, OperatorOrder[k]), k + 1)
  {
  }

  /** One round of the inner loop: no occurrence leaves the list alone; a
      failed fold stops; a successful one continues on the folded list. */
  lemma FoldOperatorStep(list: seq<Transition>, sym: Symbols.Symbol)
    requires sym in OperatorOrder
    ensures SymToBinop(sym).Some?
    ensures FindOperator(list, sym, 0).None? ==> FoldOperator(list, sym) == Success(list)
    ensures FindOperator(list, sym, 0).Some? ==>
              var p := BinaryParse(list, FindOperator(list, sym, 0).value, SymToBinop(sym).value);
              FoldOperator(list, sym) == (if p.Failure? then Failure(p.error) else FoldOperator(p.value, sym))
  {
    BinopSymbols(Add, sym);
  }

  /** A token of the written expression: an operand or an operator. */
  datatype Token = Operand(e: Expr) | OperatorTok(sym: Symbols.Symbol)

  /** The tokens an expression tree spells from left to right: a binary
      operation spells its left operand, its operator and its right
      operand; anything else is one operand. */
  function Yield(e: Expr): seq<Token> {
    match e
    case BinaryOperation(l, r, op) => Yield(l) + [OperatorTok(BinopToSym(op))] + Yield(r)
    case _ => [Operand(e)]
  }

  function RenderOne(t: Transition): seq<Token> {
    match t
    case TransExpr(e) => Yield(e)
    case InterExpr(SecondaryExpr(e)) => Yield(e)
    case InterExpr(Operator(s)) => [OperatorTok(s)]
  }

  /** The tokens a list spells from left to right. */
  function Render(list: seq<Transition>): seq<Token> {
    if list == [] then [] else Render(list[..|list| - 1]) + RenderOne(list[|list| - 1])
  }

  lemma {:induction false} RenderAppend(a: seq<Transition>, b: seq<Transition>)
    ensures Render(a + b) == Render(a) + Render(b)
    decreases |b|
  {
    if b == [] {
      assert a + b == a;
    } else {
      var b', x := b[..|b| - 1], b[|b| - 1];
      assert (a + b)[..|a + b| - 1] == a + b';
      assert (a + b)[|a + b| - 1] == x;
      RenderAppend(a, b');
      var ra, rb', rx := Render(a), Render(b'), RenderOne(x);
      assert Render(a + b) == (ra + rb') + rx;
      assert Render(b) == rb' + rx;
      assert (ra + rb') + rx == ra + (rb' + rx);
    }
  }

  lemma RenderSingle(t: Transition)
    ensures Render([t]) == RenderOne(t)
  {
    assert [t][..0] == [];
  }

  lemma RenderSplice(a: seq<Transition>, mid: seq<Transition>, b: seq<Transition>)
    ensures Render(a + mid + b) == Render(a) + Render(mid) + Render(b)
  {
    RenderAppend(a + mid, b);
    RenderAppend(a, mid);
  }

  lemma RenderThree(x: Transition, y: Transition, z: Transition)
    ensures Render([x, y, z]) == RenderOne(x) + RenderOne(y) + RenderOne(z)
  {
    assert [x, y, z][..2] == [x, y];
    assert [x, y][..1] == [x];
    RenderSingle(x);
  }

  /** Folding one operator keeps the tokens the list spells. */
  lemma BinaryParseKeepsTokens(list: seq<Transition>, i: nat, sym: Symbols.Symbol)
    requires i < |list| && list[i] == InterExpr(Operator(sym)) && SymToBinop(sym).Some?
    requires BinaryParse(list, i, SymToBinop(sym).value).Success?
    ensures Render(BinaryParse(list, i, SymToBinop(sym).value).value) == Render(list)
  {
    var op := SymToBinop(sym).value;
    var r := BinaryParse(list, i, op).value;
    var a, mid, b := list[..i - 1], list[i - 1..i + 2], list[i + 2..];
    var e := BinaryOperation(list[i - 1].expr, list[i + 1].expr, op);
    assert r == a + [TransExpr(e)] + b;
    SplitAround(list, i - 1, i + 2);
    FoldedTriple(list, i, sym);
    SpliceSame(a, [TransExpr(e)], mid, b);
  }

  /** The binary operation built from an operand, an operator and an
      operand spells those three items. */
  lemma FoldedTriple(list: seq<Transition>, i: nat, sym: Symbols.Symbol)
    requires 1 <= i && i + 1 < |list| && list[i] == InterExpr(Operator(sym)) && SymToBinop(sym).Some?
    requires list[i - 1].TransExpr? && list[i + 1].TransExpr?
    ensures Render([TransExpr(BinaryOperation(list[i - 1].expr, list[i + 1].expr, SymToBinop(sym).value))])
         == Render(list[i - 1..i + 2])
  {
    BinopSymbols(Add, sym);
    assert list[i - 1..i + 2] == [list[i - 1], list[i], list[i + 1]];
    RenderThree(list[i - 1], list[i], list[i + 1]);
    RenderSingle(TransExpr(BinaryOperation(list[i - 1].expr, list[i + 1].expr, SymToBinop(sym).value)));
  }

  /** Replacing a middle part by one that spells the same tokens keeps the
      tokens of the whole list. */
  lemma SpliceSame(a: seq<Transition>, m1: seq<Transition>, m2: seq<Transition>, b: seq<Transition>)
    requires Render(m1) == Render(m2)
    ensures Render(a + m1 + b) == Render(a + m2 + b)
  {
    RenderSplice(a, m1, b);
    RenderSplice(a, m2, b);
  }

  lemma {:induction false} FoldOperatorKeepsTokens(list: seq<Transition>, sym: Symbols.Symbol)
    requires sym in OperatorOrder
    requires FoldOperator(list, sym).Success?
    ensures Render(FoldOperator(list, sym).value) == Render(list)
    decreases |list|
  {
    BinopSymbols(Add, sym);
    match FindOperator(list, sym, 0)
    case None =>
    case Some(i) =>
      BinaryParseKeepsTokens(list, i, sym);
      FoldOperatorKeepsTokens(BinaryParse(list, i, SymToBinop(sym).value).value, sym);
  }

  lemma {:induction false} FoldFromKeepsTokens(list: seq<Transition>, k: nat)
    requires k <= |OperatorOrder|
    requires FoldFrom(list, k).Success?
    ensures Render(FoldFrom(list, k).value) == Render(list)
    decreases |OperatorOrder| - k
  {
    if k < |OperatorOrder| {
      FoldOperatorKeepsTokens(list, OperatorOrder[k]);
      FoldFromKeepsTokens(FoldOperator(list, OperatorOrder[k]).value, k + 1);
    }
  }

  /** Organizing only adds structure: the tree it builds spells the
      operands and operators of the input in their original order. */
  lemma OrganizeKeepsTokens(l: seq<Intermediate>)
    requires Organize(l).Success?
    ensures Yield(Organize(l).value) == Render(ToTransition(l))
  {
    var t := ToTransition(l);
    FoldFromKeepsTokens(t, 0);
    RenderSingle(FoldFrom(t, 0).value[0]);
  }

  /** The list the partial parser produces: operands at even positions,
      operators of the order at odd ones, one more operand than operators. */
  ghost predicate Alternating(list: seq<Transition>) {
    |list| % 2 == 1 &&
    (forall i :: 0 <= i < |list| ==> (i % 2 == 0 <==> list[i].TransExpr?)) &&
    (forall i :: 0 <= i < |list| && list[i].InterExpr? ==>
       list[i].inter.Operator? && list[i].inter.sym in OperatorOrder)
  }

  /** On an alternating list, folding an operator gives an alternating
      list two items shorter, with no new operator. */
  lemma BinaryParseAlternating(list: seq<Transition>, i: nat, op: BinaryOp)
    requires Alternating(list) && i < |list| && list[i].InterExpr?
    ensures SplitLhsRhs(list, i).Success?
    ensures BinaryParse(list, i, op).Success? ==> Alternating(BinaryParse(list, i, op).value)
    ensures BinaryParse(list, i, op).Success? ==>
              forall t :: t in BinaryParse(list, i, op).value && t.InterExpr? ==> t in list
  {
    assert i % 2 == 1;
    if BinaryParse(list, i, op).Success? {
      var r := BinaryParse(list, i, op).value;
      forall j | 0 <= j < |r|
        ensures (j % 2 == 0 <==> r[j].TransExpr?)
        ensures r[j].InterExpr? ==> r[j] in list
      {
        if j < i - 1 {
          assert r[j] == list[j];
        } else if j > i - 1 {
          assert r[j] == list[j + 2];
        }
      }
    }
  }

  lemma {:induction false} FoldOperatorAlternating(list: seq<Transition>, sym: Symbols.Symbol)
    requires sym in OperatorOrder && Alternating(list)
    ensures FoldOperator(list, sym).Success? ==>
              Alternating(FoldOperator(list, sym).value) &&
              (forall t :: t in FoldOperator(list, sym).value ==> t != InterExpr(Operator(sym))) &&
              (forall t :: t in FoldOperator(list, sym).value && t.InterExpr? ==> t in list)
    ensures FoldOperator(list, sym).Failure? ==>
              FoldOperator(list, sym).error.Untyped? ||
              FoldOperator(list, sym).error.OperandTypesDiffer? ||
              FoldOperator(list, sym).error.NumberOperandsExpected?
    decreases |list|
  {
    BinopSymbols(Add, sym);
    match FindOperator(list, sym, 0)
    case None =>
    case Some(i) =>
      BinaryParseAlternating(list, i, SymToBinop(sym).value);
      if BinaryParse(list, i, SymToBinop(sym).value).Success? {
        FoldOperatorAlternating(BinaryParse(list, i, SymToBinop(sym).value).value, sym);
      }
  }

  lemma {:induction false} FoldFromAlternating(list: seq<Transition>, k: nat)
    requires k <= |OperatorOrder| && Alternating(list)
    requires forall t :: t in list && t.InterExpr? && t.inter.Operator? ==> t.inter.sym in OperatorOrder[k..]
    ensures FoldFrom(list, k).Success? ==> |FoldFrom(list, k).value| == 1
    ensures FoldFrom(list, k).Success? ==> FoldFrom(list, k).value[0].TransExpr?
    ensures FoldFrom(list, k).Failure? ==>
              FoldFrom(list, k).error.Untyped? ||
              FoldFrom(list, k).error.OperandTypesDiffer? ||
              FoldFrom(list, k).error.NumberOperandsExpected?
    decreases |OperatorOrder| - k
  {
    if k == |OperatorOrder| {
      OperandOnly(list);
    } else {
      var sym := OperatorOrder[k];
      FoldOperatorAlternating(list, sym);
      if FoldOperator(list, sym).Success? {
        var l := FoldOperator(list, sym).value;
        OperatorsLeft(list, l, k);
        FoldFromAlternating(l, k + 1);
      }
    }
  }

  /** An alternating list without operators is one operand. */
  lemma OperandOnly(list: seq<Transition>)
    requires Alternating(list)
    requires forall t :: t in list ==> t.TransExpr?
    ensures |list| == 1 && list[0].TransExpr?
  {
    if |list| > 1 {
      Member(list, 1);
      assert false;
    }
  }

  lemma Member<T>(s: seq<T>, i: nat)
    requires i < |s|
    ensures s[i] in s
  {
  }

  /** After the `k`-th operator is folded, only later operators remain. */
  lemma OperatorsLeft(list: seq<Transition>, l: seq<Transition>, k: nat)
    requires k < |OperatorOrder|
    requires forall t :: t in list && t.InterExpr? && t.inter.Operator? ==> t.inter.sym in OperatorOrder[k..]
    requires forall t :: t in l ==> t != InterExpr(Operator(OperatorOrder[k]))
    requires forall t :: t in l && t.InterExpr? ==> t in list
    ensures forall t :: t in l && t.InterExpr? && t.inter.Operator? ==> t.inter.sym in OperatorOrder[k + 1..]
  {
    assert OperatorOrder[k..] == [OperatorOrder[k]] + OperatorOrder[k + 1..];
    forall t | t in l && t.InterExpr? && t.inter.Operator?
      ensures t.inter.sym in OperatorOrder[k + 1..]
    {
      assert t in list;
      assert t.inter.sym != OperatorOrder[k];
    }
  }

  /** On the lists the partial parser builds, organizing succeeds unless an
      operand has no type or the operand types do not fit an operator: the
      structural panics of `organize` cannot happen. */
  lemma OrganizeAlternating(l: seq<Intermediate>)
    requires Alternating(ToTransition(l))
    ensures Organize(l).Failure? ==>
              Organize(l).error.Untyped? || Organize(l).error.OperandTypesDiffer? ||
              Organize(l).error.NumberOperandsExpected?
  {
    var t := ToTransition(l);
    forall x | x in t && x.InterExpr? && x.inter.Operator?
      ensures x.inter.sym in OperatorOrder[0..]
    {
      assert OperatorOrder[0..] == OperatorOrder;
    }
    FoldFromAlternating(t, 0);
  }

  /** Every operand in the list has a static type. */
  ghost predicate OperandsTyped(list: seq<Transition>) {
    forall i :: 0 <= i < |list| && list[i].TransExpr? ==> GetType(list[i].expr).Success?
  }

  /** A successful fold passed the operand type checks, so the binary
      operation it builds has a type too. */
  lemma BinaryParseTyped(list: seq<Transition>, i: nat, op: BinaryOp)
    requires OperandsTyped(list) && BinaryParse(list, i, op).Success?
    ensures OperandsTyped(BinaryParse(list, i, op).value)
  {
    var r := BinaryParse(list, i, op).value;
    var lhs, rhs := list[i - 1].expr, list[i + 1].expr;
    assert GetType(lhs).Success? && GetType(rhs).Success?;
    assert GetType(lhs).value == GetType(rhs).value;
    forall j | 0 <= j < |r| && r[j].TransExpr?
      ensures GetType(r[j].expr).Success?
    {
      if j < i - 1 {
        assert r[j] == list[j];
      } else if j > i - 1 {
        assert r[j] == list[j + 2];
      }
    }
  }

  lemma {:induction false} FoldOperatorTyped(list: seq<Transition>, sym: Symbols.Symbol)
    requires sym in OperatorOrder && OperandsTyped(list)
    ensures FoldOperator(list, sym).Success? ==> OperandsTyped(FoldOperator(list, sym).value)
    decreases |list|
  {
    BinopSymbols(Add, sym);
    match FindOperator(list, sym, 0)
    case None =>
    case Some(i) =>
      var op := SymToBinop(sym).value;
      if BinaryParse(list, i, op).Success? {
        BinaryParseTyped(list, i, op);
        FoldOperatorTyped(BinaryParse(list, i, op).value, sym);
      }
  }

  lemma {:induction false} FoldFromTyped(list: seq<Transition>, k: nat)
    requires k <= |OperatorOrder| && OperandsTyped(list)
    ensures FoldFrom(list, k).Success? ==> OperandsTyped(FoldFrom(list, k).value)
    decreases |OperatorOrder| - k
  {
    if k < |OperatorOrder| {
      FoldOperatorTyped(list, OperatorOrder[k]);
      if FoldOperator(list, OperatorOrder[k]).Success? {
        FoldFromTyped(FoldOperator(list, OperatorOrder[k]).value, k + 1);
      }
    }
  }

  /** On the lists the partial parser builds, with typed operands, the
      expression `organize` returns has a static type: the type check of
      every fold has passed. */
  lemma OrganizeTyped(l: seq<Intermediate>)
    requires Alternating(ToTransition(l)) && OperandsTyped(ToTransition(l))
    ensures Organize(l).Success? ==> GetType(Organize(l).value).Success?
  {
    var t := ToTransition(l);
    forall x | x in t && x.InterExpr? && x.inter.Operator?
      ensures x.inter.sym in OperatorOrder[0..]
    {
      assert OperatorOrder[0..] == OperatorOrder;
    }
    FoldFromAlternating(t, 0);
    FoldFromTyped(t, 0);
  }

  function Num(n: I32): Expr { LiteralExpr(Number(n)) }

  /** A fold of the operator at `k` hands its result to the rest of the
      order. */
  lemma FoldFromNext(list: seq<Transition>, k: nat, next: seq<Transition>)
    requires k < |OperatorOrder| && FoldOperator(list, OperatorOrder[k]) == Success(next)
    ensures FoldFrom(list, k) == FoldFrom(next, k + 1)
  {
  }

  /** The list `organize` builds from operand, operator, operand,
      operator, operand. */
  lemma FiveItems(a: Expr, o1: Symbols.Symbol, b: Expr, o2: Symbols.Symbol, c: Expr)
    ensures ToTransition([SecondaryExpr(a), Operator(o1), SecondaryExpr(b), Operator(o2), SecondaryExpr(c)])
         == [TransExpr(a), InterExpr(Operator(o1)), TransExpr(b), InterExpr(Operator(o2)), TransExpr(c)]
  {
  }

  /** Folding down to a single operand organizes to that operand. */
  lemma OrganizeVia(l: seq<Intermediate>, e: Expr)
    requires FoldFrom(ToTransition(l), 0) == Success([TransExpr(e)])
    ensures Organize(l) == Success(e)
  {
  }

  /** A lone operand, with no operator to fold, organizes to itself. */
  lemma OrganizeOperand(e: Expr)
    ensures Organize([SecondaryExpr(e)]) == Success(e)
  {
    var t := ToTransition([SecondaryExpr(e)]);
    assert t == [TransExpr(e)];
    FoldFromSkip(t, 0, |OperatorOrder|);
    OrganizeVia([SecondaryExpr(e)], e);
  }

  lemma {:induction false} FoldFromSkip(list: seq<Transition>, k: nat, m: nat)
    requires k <= m <= |OperatorOrder|
    requires forall j, t :: k <= j < m && t in list ==> t != InterExpr(Operator(OperatorOrder[j]))
    ensures FoldFrom(list, k) == FoldFrom(list, m)
    decreases m - k
  {
    if k < m {
      var sym := OperatorOrder[k];
      var r := FindOperator(list, sym, 0);
      if r.Some? {
        Member(list, r.value);
        assert false;
      }
      FoldFromSkip(list, k + 1, m);
    }
  }

  /** One fold of the leftmost occurrence of an operator. */
  lemma FoldAt(list: seq<Transition>, sym: Symbols.Symbol, i: nat, next: seq<Transition>)
    requires sym in OperatorOrder && i < |list| && list[i] == InterExpr(Operator(sym))
    requires forall j :: 0 <= j < i ==> list[j] != InterExpr(Operator(sym))
    requires SymToBinop(sym).Some? && BinaryParse(list, i, SymToBinop(sym).value) == Success(next)
    ensures FoldOperator(list, sym) == FoldOperator(next, sym)
  {
    FindFirst(list, sym, 0, i);
  }

  lemma {:induction false} FindFirst(list: seq<Transition>, sym: Symbols.Symbol, from: nat, i: nat)
    requires from <= i < |list| && list[i] == InterExpr(Operator(sym))
    requires forall j :: from <= j < i ==> list[j] != InterExpr(Operator(sym))
    ensures FindOperator(list, sym, from) == Some(i)
    decreases i - from
  {
    if from < i {
      FindFirst(list, sym, from + 1, i);
    }
  }

  /** `10 - 2 - 3` after the operators before `-` in the order. */
  lemma SubtractionChain(e1: Expr)
    requires e1 == BinaryOperation(Num(10), Num(2), Sub)
    ensures FoldOperator([TransExpr(Num(10)), InterExpr(Operator(Symbols.Sub)), TransExpr(Num(2)),
                          InterExpr(Operator(Symbols.Sub)), TransExpr(Num(3))], Symbols.Sub)
            == Success([TransExpr(BinaryOperation(e1, Num(3), Sub))])
  {
    var t := [TransExpr(Num(10)), InterExpr(Operator(Symbols.Sub)), TransExpr(Num(2)),
              InterExpr(Operator(Symbols.Sub)), TransExpr(Num(3))];
    var s1 := [TransExpr(e1), InterExpr(Operator(Symbols.Sub)), TransExpr(Num(3))];
    var s2 := [TransExpr(BinaryOperation(e1, Num(3), Sub))];
    assert t[..0] + [TransExpr(e1)] + t[3..] == s1;
    FoldAt(t, Symbols.Sub, 1, s1);
    assert s1[..0] + [TransExpr(BinaryOperation(e1, Num(3), Sub))] + s1[3..] == s2;
    FoldAt(s1, Symbols.Sub, 1, s2);
    assert FindOperator(s2, Symbols.Sub, 0) == None;
  }

  /** Same-operator chains group to the left: `10 - 2 - 3` is
      `(10 - 2) - 3`. */
  lemma SubtractionGroupsLeft()
    ensures Organize([SecondaryExpr(Num(10)), Operator(Symbols.Sub), SecondaryExpr(Num(2)),
                      Operator(Symbols.Sub), SecondaryExpr(Num(3))])
            == Success(BinaryOperation(BinaryOperation(Num(10), Num(2), Sub), Num(3), Sub))
  {
    FiveItems(Num(10), Symbols.Sub, Num(2), Symbols.Sub, Num(3));
    SubtractionFolds();
    OrganizeVia([SecondaryExpr(Num(10)), Operator(Symbols.Sub), SecondaryExpr(Num(2)),
                 Operator(Symbols.Sub), SecondaryExpr(Num(3))],
                BinaryOperation(BinaryOperation(Num(10), Num(2), Sub), Num(3), Sub));
  }

  lemma SubtractionFolds()
    ensures FoldFrom([TransExpr(Num(10)), InterExpr(Operator(Symbols.Sub)), TransExpr(Num(2)),
                      InterExpr(Operator(Symbols.Sub)), TransExpr(Num(3))], 0)
            == Success([TransExpr(BinaryOperation(BinaryOperation(Num(10), Num(2), Sub), Num(3), Sub))])
  {
    OrderEntries();
    var t := [TransExpr(Num(10)), InterExpr(Operator(Symbols.Sub)), TransExpr(Num(2)),
              InterExpr(Operator(Symbols.Sub)), TransExpr(Num(3))];
    var e1 := BinaryOperation(Num(10), Num(2), Sub);
    var s2 := [TransExpr(BinaryOperation(e1, Num(3), Sub))];
    FoldFromSkip(t, 0, 6);
    SubtractionChain(e1);
    FoldFromNext(t, 6, s2);
    FoldFromSkip(s2, 7, 8);
  }


  /** `8 / 2 * 2` through `*` and then `/`. */
  lemma DivideChain(e1: Expr)
    requires e1 == BinaryOperation(Num(2), Num(2), Multiply)
    ensures FoldOperator([TransExpr(Num(8)), InterExpr(Operator(Symbols.Divide)), TransExpr(Num(2)),
                          InterExpr(Operator(Symbols.Multiply)), TransExpr(Num(2))], Symbols.Multiply)
            == Success([TransExpr(Num(8)), InterExpr(Operator(Symbols.Divide)), TransExpr(e1)])
    ensures FoldOperator([TransExpr(Num(8)), InterExpr(Operator(Symbols.Divide)), TransExpr(e1)], Symbols.Divide)
            == Success([TransExpr(BinaryOperation(Num(8), e1, Divide))])
  {
    var t := [TransExpr(Num(8)), InterExpr(Operator(Symbols.Divide)), TransExpr(Num(2)),
              InterExpr(Operator(Symbols.Multiply)), TransExpr(Num(2))];
    var s1 := [TransExpr(Num(8)), InterExpr(Operator(Symbols.Divide)), TransExpr(e1)];
    var s2 := [TransExpr(BinaryOperation(Num(8), e1, Divide))];
    assert t[..2] + [TransExpr(e1)] + t[5..] == s1;
    FoldAt(t, Symbols.Multiply, 3, s1);
    assert FindOperator(s1, Symbols.Multiply, 0) == None;
    assert s1[..0] + [TransExpr(BinaryOperation(Num(8), e1, Divide))] + s1[3..] == s2;
    FoldAt(s1, Symbols.Divide, 1, s2);
    assert FindOperator(s2, Symbols.Divide, 0) == None;
  }

  /** Multiplication is folded before division, whatever their order in
      the text: `8 / 2 * 2` is `8 / (2 * 2)`. */
  lemma MultiplyBeforeDivide()
    ensures Organize([SecondaryExpr(Num(8)), Operator(Symbols.Divide), SecondaryExpr(Num(2)),
                      Operator(Symbols.Multiply), SecondaryExpr(Num(2))])
            == Success(BinaryOperation(Num(8), BinaryOperation(Num(2), Num(2), Multiply), Divide))
  {
    FiveItems(Num(8), Symbols.Divide, Num(2), Symbols.Multiply, Num(2));
    MultiplyDivideFolds();
    OrganizeVia([SecondaryExpr(Num(8)), Operator(Symbols.Divide), SecondaryExpr(Num(2)),
                 Operator(Symbols.Multiply), SecondaryExpr(Num(2))],
                BinaryOperation(Num(8), BinaryOperation(Num(2), Num(2), Multiply), Divide));
  }

  lemma MultiplyDivideFolds()
    ensures FoldFrom([TransExpr(Num(8)), InterExpr(Operator(Symbols.Divide)), TransExpr(Num(2)),
                      InterExpr(Operator(Symbols.Multiply)), TransExpr(Num(2))], 0)
            == Success([TransExpr(BinaryOperation(Num(8), BinaryOperation(Num(2), Num(2), Multiply), Divide))])
  {
    OrderEntries();
    var t := [TransExpr(Num(8)), InterExpr(Operator(Symbols.Divide)), TransExpr(Num(2)),
              InterExpr(Operator(Symbols.Multiply)), TransExpr(Num(2))];
    var e1 := BinaryOperation(Num(2), Num(2), Multiply);
    var s1 := [TransExpr(Num(8)), InterExpr(Operator(Symbols.Divide)), TransExpr(e1)];
    var s2 := [TransExpr(BinaryOperation(Num(8), e1, Divide))];
    FoldFromSkip(t, 0, 1);
    DivideChain(e1);
    FoldFromNext(t, 1, s1);
    FoldFromNext(s1, 2, s2);
    FoldFromSkip(s2, 3, 8);
  }


  /** `10 - 2 + 3` through `+` and then `-`. */
  lemma AddSubChain(e1: Expr)
    requires e1 == BinaryOperation(Num(2), Num(3), Add)
    ensures FoldOperator([TransExpr(Num(10)), InterExpr(Operator(Symbols.Sub)), TransExpr(Num(2)),
                          InterExpr(Operator(Symbols.Add)), TransExpr(Num(3))], Symbols.Add)
            == Success([TransExpr(Num(10)), InterExpr(Operator(Symbols.Sub)), TransExpr(e1)])
    ensures FoldOperator([TransExpr(Num(10)), InterExpr(Operator(Symbols.Sub)), TransExpr(e1)], Symbols.Sub)
            == Success([TransExpr(BinaryOperation(Num(10), e1, Sub))])
  {
    var t := [TransExpr(Num(10)), InterExpr(Operator(Symbols.Sub)), TransExpr(Num(2)),
              InterExpr(Operator(Symbols.Add)), TransExpr(Num(3))];
    var s1 := [TransExpr(Num(10)), InterExpr(Operator(Symbols.Sub)), TransExpr(e1)];
    var s2 := [TransExpr(BinaryOperation(Num(10), e1, Sub))];
    assert t[..2] + [TransExpr(e1)] + t[5..] == s1;
    FoldAt(t, Symbols.Add, 3, s1);
    assert FindOperator(s1, Symbols.Add, 0) == None;
    assert s1[..0] + [TransExpr(BinaryOperation(Num(10), e1, Sub))] + s1[3..] == s2;
    FoldAt(s1, Symbols.Sub, 1, s2);
    assert FindOperator(s2, Symbols.Sub, 0) == None;
  }

  /** Addition is folded before subtraction: `10 - 2 + 3` is
      `10 - (2 + 3)`, not `(10 - 2) + 3`. */
  lemma AddBeforeSubtract()
    ensures Organize([SecondaryExpr(Num(10)), Operator(Symbols.Sub), SecondaryExpr(Num(2)),
                      Operator(Symbols.Add), SecondaryExpr(Num(3))])
            == Success(BinaryOperation(Num(10), BinaryOperation(Num(2), Num(3), Add), Sub))
  {
    FiveItems(Num(10), Symbols.Sub, Num(2), Symbols.Add, Num(3));
    AddSubtractFolds();
    OrganizeVia([SecondaryExpr(Num(10)), Operator(Symbols.Sub), SecondaryExpr(Num(2)),
                 Operator(Symbols.Add), SecondaryExpr(Num(3))],
                BinaryOperation(Num(10), BinaryOperation(Num(2), Num(3), Add), Sub));
  }

  lemma AddSubtractFolds()
    ensures FoldFrom([TransExpr(Num(10)), InterExpr(Operator(Symbols.Sub)), TransExpr(Num(2)),
                      InterExpr(Operator(Symbols.Add)), TransExpr(Num(3))], 0)
            == Success([TransExpr(BinaryOperation(Num(10), BinaryOperation(Num(2), Num(3), Add), Sub))])
  {
    OrderEntries();
    var t := [TransExpr(Num(10)), InterExpr(Operator(Symbols.Sub)), TransExpr(Num(2)),
              InterExpr(Operator(Symbols.Add)), TransExpr(Num(3))];
    var e1 := BinaryOperation(Num(2), Num(3), Add);
    var s1 := [TransExpr(Num(10)), InterExpr(Operator(Symbols.Sub)), TransExpr(e1)];
    var s2 := [TransExpr(BinaryOperation(Num(10), e1, Sub))];
    FoldFromSkip(t, 0, 5);
    AddSubChain(e1);
    FoldFromNext(t, 5, s1);
    FoldFromNext(s1, 6, s2);
    FoldFromSkip(s2, 7, 8);
  }

}
