/** Running expressions (the `run_secondary_expr` and `run_expr` methods of
    expressions/secondary.rs, operators/binary.rs, primary/format.rs,
    primary/print.rs, primary/variable.rs, primary.rs, parentheses.rs,
    variableref.rs and callfunc.rs, with `EightInterpreter::step` and
    `run`). Each method works on an `EightInterpreter` and is proved against
    a function on `Machine`, about which the lemmas at the end speak. */
module Evaluator {
  import opened Wrappers
  import opened Values
  import opened Memory
  import opened Running
  import opened Expressions
  import opened Functions

  const I32Min: int := -0x8000_0000

  /** A result of `i32` arithmetic: Rust's overflow check panics outside the
      range. */
  function InI32(x: int): (r: Result<I32, Fault>)
    ensures r.Success? <==> I32Min <= x <= I32Max
    ensures r.Success? ==> r.value as int == x
    ensures r.Failure? ==> r.error == Overflow
  {
    if I32Min <= x <= I32Max then Success(x as I32) else Failure(Overflow)
  }

  function Abs(x: int): nat {
    if x < 0 then -x else x
  }

  /** Rust's `/`: the quotient rounded toward zero. */
  function TruncDiv(a: int, b: int): int
    requires b != 0
  {
    if (a < 0) == (b < 0) then Abs(a) / Abs(b) else -(Abs(a) / Abs(b))
  }

  /** Rust's `%`: the remainder that goes with `TruncDiv`. */
  function TruncRem(a: int, b: int): int
    requires b != 0
  {
    a - b * TruncDiv(a, b)
  }

  /** `i32::pow` on the mathematical integers. */
  function Pow(b: int, e: nat): int {
    if e == 0 then 1 else b * Pow(b, e - 1)
  }

  /** The arithmetic operators on two `i32` values: overflow, a zero divisor
      and a negative exponent are runtime faults. */
  function Arith(op: BinaryOp, l: I32, r: I32): (v: Result<I32, Fault>)
    requires op != EqualityCheck
    ensures op == Add ==> v == InI32(l as int + r as int)
    ensures op == Sub ==> v == InI32(l as int - r as int)
    ensures op == Multiply ==> v == InI32(l as int * r as int)
    ensures (op == Divide || op == Modulo) && r == 0 ==> v == Failure(DivideByZero)
    ensures op == Exponent && r < 0 ==> v == Failure(NegativeExponent)
  {
    match op
    case Add => InI32(l as int + r as int)
    case Sub => InI32(l as int - r as int)
    case Multiply => InI32(l as int * r as int)
    case Divide => if r == 0 then Failure(DivideByZero) else InI32(TruncDiv(l as int, r as int))
    case Modulo =>
      if r == 0 then Failure(DivideByZero)
      else if l as int == I32Min && r == -1 then Failure(Overflow)
      else InI32(TruncRem(l as int, r as int))
    case Exponent => if r < 0 then Failure(NegativeExponent) else InI32(Pow(l as int, r as nat))
  }

  /** The value a binary operation computes from its operands' values: `==`
      compares them, every other operator reads both as numbers. */
  function BinaryValue(op: BinaryOp, lv: Value, rv: Value): Result<Value, Fault> {
    if op == EqualityCheck then
      var eq :- ValueEq(lv, rv);
      Success(LiteralVal(Boolean(eq)))
    else
      var l :- ImplicitNumber(lv);
      var r :- ImplicitNumber(rv);
      var n :- Arith(op, l, r);
      Success(LiteralVal(Number(n)))
  }

  /** The result of a step: the new state and the reference to the value. */
  type StepResult = Result<(Machine, MemRef), Fault>

  /** `step`: runs a secondary expression and answers where its value is.
      A literal is pushed on the stack; a variable is not copied, its frame
      reference is the result; an operation pops its operands' stack slots
      and pushes its value. */
  function Eval(m: Machine, e: Expr): (r: StepResult)
    requires WellFormed(m)
    ensures r.Success? ==> WellFormed(r.value.0)
    decreases e, 1
  {
    match e
    case LiteralExpr(l) => MAddValToStack(m, LiteralVal(l))
    case NoOpExpr => Success((m, EmptyMem))
    case Reference(n, _) =>
      var mem :- MGetValFromFrame(m, n);
      Success((m, mem))
    case ParenExpr(i) => Eval(m, i)
    case ListExpr(_, _) => Failure(NotImplemented)
    case BinaryOperation(lhs, rhs, op) =>
      var a :- Eval(m, lhs);
      var b :- Eval(a.0, rhs);
      var lv :- MGetVal(b.0, a.1);
      var rv :- MGetVal(b.0, b.1);
      var v :- BinaryValue(op, lv, rv);
      var m1 :- MPopStackVals(b.0, a.1);
      var m2 :- MPopStackVals(m1, b.1);
      MAddValToStack(m2, v)
    case FormatExpr(es) => EvalFormat(m, es, 0, "")
    case CallResult(f, args) => EvalCall(m, f, args)
  }

  /** `Format::run_secondary_expr` from argument `i` on, with `acc` the text
      so far: each argument is run, read through the explicit string cast
      and popped; the whole text is then pushed. */
  function EvalFormat(m: Machine, es: seq<Expr>, i: nat, acc: string): (r: StepResult)
    requires WellFormed(m) && i <= |es|
    ensures r.Success? ==> WellFormed(r.value.0)
    decreases es, 0, |es| - i
  {
    if i == |es| then MAddValToStack(m, LiteralVal(Str(acc)))
    else
      var a :- Eval(m, es[i]);
      var v :- MGetVal(a.0, a.1);
      var s :- ExplicitString(v);
      var m1 :- MPopStackVals(a.0, a.1);
      EvalFormat(m1, es, i + 1, acc + s)
  }

  /** The name the argument at loop index `k` is bound to. */
  function ArgName(k: nat): string {
    "$" + NatDecimal(k)
  }

  /** `CallFunc::run_secondary_expr`. A user-defined body is not
      implemented. For a built-in: the arguments are run and moved out of
      their places, a new frame binds them as `$0, $1, …`, the built-in
      runs, each `$i` is moved out again, the frame list is popped, and the
      values of arguments that were frame variables are bound again under
      their names in the newest frame. */
  function EvalCall(m: Machine, f: Func, args: seq<Expr>): (r: StepResult)
    requires WellFormed(m)
    ensures r.Success? ==> WellFormed(r.value.0)
    decreases args, 1
  {
    match f.content
    case UserDefined => Failure(NotImplemented)
    case BuiltInFunc(b) =>
      var p :- EvalArgs(m, args, 0, [], []);
      CallBody(p.0, b, p.1, p.2)
  }

  /** A built-in call once its arguments are run: `vars` holds each
      argument's name and original reference, `vals` its name and value. */
  function CallBody(m: Machine, b: Builtin, vars: seq<(string, MemRef)>, vals: seq<(string, Value)>): (r: StepResult)
    requires WellFormed(m)
    ensures r.Success? ==> WellFormed(r.value.0)
  {
    var m1 := AddAll(MNewFrame(m), vals, 0);
    var q :- RunBuiltin(m1, b);
    var s :- TakeBack(q.0, vars, 0, []);
    var m3 :- RestoreAll(MPopOrClearFrame(s.0), s.1, 0);
    Success((m3, q.1))
  }

  /** The argument loop of a call, from loop index `k`, with the names and
      references (`vars`) and the names and values (`vals`) so far. The
      index runs over the original count while each `grab_arg(k)` removes
      from the shrinking list, so step `k` takes original argument `2k`
      (`GrabsShape`) and faults once `2k` reaches the count. */
  function EvalArgs(m: Machine, args: seq<Expr>, k: nat, vars: seq<(string, MemRef)>, vals: seq<(string, Value)>)
    : (r: Result<(Machine, seq<(string, MemRef)>, seq<(string, Value)>), Fault>)
    requires WellFormed(m) && k <= |args|
    ensures r.Success? ==> WellFormed(r.value.0)
    decreases args, 0, |args| - k
  {
    if k == |args| then Success((m, vars, vals))
    else if 2 * k >= |args| then Failure(RemovalIndexOutOfRange)
    else
      var d :- EvalArg(m, args[2 * k]);
      EvalArgs(d.0, args, k + 1, vars + [(ArgName(k), d.1.0)], vals + [(ArgName(k), d.1.1)])
  }

  /** One argument of a call: run, then moved out of its place; the result
      keeps where it was and the value. */
  function EvalArg(m: Machine, e: Expr): (r: Result<(Machine, (MemRef, Value)), Fault>)
    requires WellFormed(m)
    ensures r.Success? ==> WellFormed(r.value.0)
    decreases e, 2
  {
    var d :- Eval(m, e);
    var t :- MTakeVal(d.0, d.1);
    Success((t.0, (d.1, t.1)))
  }

  /** `add_val_to_frame` for each argument value, from index `j` on. */
  function AddAll(m: Machine, vals: seq<(string, Value)>, j: nat): (r: Machine)
    requires WellFormed(m) && j <= |vals|
    ensures WellFormed(r)
    decreases |vals| - j
  {
    if j == |vals| then m else AddAll(MAddValToFrame(m, vals[j].0, vals[j].1), vals, j + 1)
  }

  /** The built-in functions: `Func::empty`'s returns the empty reference,
      `Database::csv` reads `$0` as a String and pushes a CSV handle, and
      `ThreadPool::new` reads `$0` as a Number and pushes a pool. */
  function RunBuiltin(m: Machine, b: Builtin): (r: StepResult)
    requires WellFormed(m)
    ensures r.Success? ==> WellFormed(r.value.0)
  {
    match b
    case ReturnEmpty => Success((m, EmptyMem))
    case CsvOpen =>
      var v :- MGetVal(m, FrameMem("$0"));
      var s :- ImplicitString(v);
      MAddValToStack(m, NamespaceVal(DatabaseCsv(s)))
    case ThreadPoolNew =>
      var v :- MGetVal(m, FrameMem("$0"));
      var n :- ImplicitNumber(v);
      MAddValToStack(m, NamespaceVal(ThreadPoolOf(n)))
  }

  /** The second loop of a call, from index `j` on: each `$i` is looked up
      in the newest frame and moved out, paired with the argument's
      original reference. */
  function TakeBack(m: Machine, vars: seq<(string, MemRef)>, j: nat, mods: seq<(MemRef, Value)>)
    : (r: Result<(Machine, seq<(MemRef, Value)>), Fault>)
    requires WellFormed(m) && j <= |vars|
    ensures r.Success? ==> WellFormed(r.value.0)
    decreases |vars| - j
  {
    if j == |vars| then Success((m, mods))
    else
      var mem :- MGetValFromFrame(m, vars[j].0);
      var t :- MTakeVal(m, mem);
      TakeBack(t.0, vars, j + 1, mods + [(vars[j].1, t.1)])
  }

  /** The third loop of a call, from index `j` on: `add_mem_to_frame` for
      each argument. */
  function RestoreAll(m: Machine, mods: seq<(MemRef, Value)>, j: nat): (r: Result<Machine, Fault>)
    requires WellFormed(m) && j <= |mods|
    ensures r.Success? ==> WellFormed(r.value)
    decreases |mods| - j
  {
    if j == |mods| then Success(m)
    else
      var m1 :- MAddMemToFrame(m, mods[j].0, mods[j].1);
      RestoreAll(m1, mods, j + 1)
  }

  /** `Print::run_expr` from argument `i` on, with `acc` the line so far:
      each argument is run, read through the implicit string cast (so only
      String values pass) and popped; the line is then written. */
  function EvalPrint(m: Machine, es: seq<Expr>, i: nat, acc: string): (r: Result<Machine, Fault>)
    requires WellFormed(m) && i <= |es|
    ensures r.Success? ==> WellFormed(r.value)
    decreases |es| - i
  {
    if i == |es| then Success(m.(out := m.out + [acc]))
    else
      var a :- Eval(m, es[i]);
      var v :- MGetVal(a.0, a.1);
      var s :- ImplicitString(v);
      var m1 :- MPopStackVals(a.0, a.1);
      EvalPrint(m1, es, i + 1, acc + s)
  }

  /** `Expression::run_expr`: a declaration runs its value, moves it out of
      its place and binds it in the newest frame (a name already bound keeps
      its old value); `print` writes a line; the others are not
      implemented. */
  function RunExpr(m: Machine, x: Expression): (r: Result<Machine, Fault>)
    requires WellFormed(m)
    ensures r.Success? ==> WellFormed(r.value)
  {
    match x
    case VariableTokenExpr(name, v) =>
      var d :- Eval(m, v);
      var t :- MTakeVal(d.0, d.1);
      Success(MAddValToFrame(t.0, name, t.1))
    case PrintExpr(args) => EvalPrint(m, args, 0, "")
    case ReturnExpr(_) => Failure(NotImplemented)
    case EndParsingExpr => Failure(NotImplemented)
  }

  /** `EightInterpreter::run`: the statements in order, up to the first
      fault. */
  function RunAll(m: Machine, xs: seq<Expression>): (r: Result<Machine, Fault>)
    requires WellFormed(m)
    ensures r.Success? ==> WellFormed(r.value)
    decreases |xs|
  {
    if xs == [] then Success(m)
    else
      var m1 :- RunExpr(m, xs[0]);
      RunAll(m1, xs[1..])
  }

  /** `EightInterpreter::step` with the dispatch of
      `SecondaryExpression::run_secondary_expr`. */
  method Step(it: EightInterpreter, e: Expr) returns (r: Result<MemRef, Fault>)
    requires it.Valid()
    modifies it.Repr
    ensures it.Valid() && fresh(it.Repr - old(it.Repr))
    ensures Outcome(r, it.State()) == Eval(old(it.State()), e)
    decreases e, 1
  {
    match e
    case LiteralExpr(l) =>
      r := it.AddValToStack(LiteralVal(l));
    case NoOpExpr =>
      r := Success(EmptyMem);
    case Reference(n, _) =>
      r := it.GetValFromFrame(n);
    case ParenExpr(i) =>
      r := Step(it, i);
    case ListExpr(_, _) =>
      r := Failure(NotImplemented);
    case BinaryOperation(_, _, _) =>
      r := StepBinary(it, e);
    case FormatExpr(es) =>
      r := StepFormat(it, es);
    case CallResult(f, args) =>
      r := StepCall(it, f, args);
  }

  /** `BinaryOperator::run_secondary_expr`. */
  method StepBinary(it: EightInterpreter, e: Expr) returns (r: Result<MemRef, Fault>)
    requires it.Valid() && e.BinaryOperation?
    modifies it.Repr
    ensures it.Valid() && fresh(it.Repr - old(it.Repr))
    ensures Outcome(r, it.State()) == Eval(old(it.State()), e)
    decreases e, 0
  {
    ghost var s0 := it.State();
    var m1 := Step(it, e.lhs);
    if m1.Failure? {
      return Failure(m1.error);
    }
    ghost var s1 := it.State();
    var m2 := Step(it, e.rhs);
    if m2.Failure? {
      return Failure(m2.error);
    }
    ghost var s2 := it.State();
    assert Eval(s0, e.lhs) == Success((s1, m1.value));
    assert Eval(s1, e.rhs) == Success((s2, m2.value));
    var l1 := it.GetVal(m1.value);
    if l1.Failure? {
      return Failure(l1.error);
    }
    var r1 := it.GetVal(m2.value);
    if r1.Failure? {
      return Failure(r1.error);
    }
    var val := BinaryValue(e.op, l1.value, r1.value);
    if val.Failure? {
      return Failure(val.error);
    }
    var p1 := it.PopStackVals(m1.value);
    if p1.Failure? {
      return Failure(p1.error);
    }
    var p2 := it.PopStackVals(m2.value);
    if p2.Failure? {
      return Failure(p2.error);
    }
    r := it.AddValToStack(val.value);
  }

  /** `Format::run_secondary_expr`. */
  method StepFormat(it: EightInterpreter, es: seq<Expr>) returns (r: Result<MemRef, Fault>)
    requires it.Valid()
    modifies it.Repr
    ensures it.Valid() && fresh(it.Repr - old(it.Repr))
    ensures Outcome(r, it.State()) == EvalFormat(old(it.State()), es, 0, "")
    decreases es, 0
  {
    var outStr := "";
    for i := 0 to |es|
      invariant it.Valid() && fresh(it.Repr - old(it.Repr))
      invariant EvalFormat(old(it.State()), es, 0, "") == EvalFormat(it.State(), es, i, outStr)
    {
      var val := Step(it, es[i]);
      if val.Failure? {
        return Failure(val.error);
      }
      var v := it.GetVal(val.value);
      if v.Failure? {
        return Failure(v.error);
      }
      var s := ExplicitString(v.value);
      if s.Failure? {
        return Failure(s.error);
      }
      outStr := outStr + s.value;
      var p := it.PopStackVals(val.value);
      if p.Failure? {
        return Failure(p.error);
      }
    }
    r := it.AddValToStack(LiteralVal(Str(outStr)));
  }

  /** `CallFunc::run_secondary_expr`: the argument loop, the new frame, the
      built-in, and the two loops that move the arguments back. */
  method StepCall(it: EightInterpreter, f: Func, args: seq<Expr>) returns (r: Result<MemRef, Fault>)
    requires it.Valid()
    modifies it.Repr
    ensures it.Valid() && fresh(it.Repr - old(it.Repr))
    ensures Outcome(r, it.State()) == EvalCall(old(it.State()), f, args)
    decreases args, 2
  {
    if f.content.UserDefined? {
      return Failure(NotImplemented);
    }
    var b := f.content.builtin;
    var p := CallArgs(it, args);
    if p.Failure? {
      return Failure(p.error);
    }
    r := RunCallBody(it, b, p.value.0, p.value.1);
  }

  /** The rest of `CallFunc::run_secondary_expr` once the arguments are
      run: a new frame, the arguments bound, the built-in run, the
      arguments moved back, the frame list popped, the arguments restored. */
  method RunCallBody(it: EightInterpreter, b: Builtin, fnVars: seq<(string, MemRef)>, fnArgs: seq<(string, Value)>)
    returns (r: Result<MemRef, Fault>)
    requires it.Valid()
    modifies it.Repr
    ensures it.Valid() && fresh(it.Repr - old(it.Repr))
    ensures Outcome(r, it.State()) == CallBody(old(it.State()), b, fnVars, fnArgs)
  {
    it.NewFrame();
    BindArgs(it, fnArgs);
    var o := Call(it, b);
    if o.Failure? {
      return Failure(o.error);
    }
    var modArgs := TakeArgsBack(it, fnVars);
    if modArgs.Failure? {
      return Failure(modArgs.error);
    }
    it.PopOrClearFrame();
    var a := RestoreArgs(it, modArgs.value);
    if a.Failure? {
      return Failure(a.error);
    }
    r := Success(o.value);
  }

  /** The first loop of a call after the arguments: each value is bound
      under its name in the new frame. */
  method BindArgs(it: EightInterpreter, fnArgs: seq<(string, Value)>)
    requires it.Valid()
    modifies it.Repr
    ensures it.Valid() && it.Repr == old(it.Repr)
    ensures it.State() == AddAll(old(it.State()), fnArgs, 0)
  {
    ghost var s1 := it.State();
    for j := 0 to |fnArgs|
      invariant it.Valid() && it.Repr == old(it.Repr)
      invariant AddAll(s1, fnArgs, 0) == AddAll(it.State(), fnArgs, j)
    {
      it.AddValToFrame(fnArgs[j].0, fnArgs[j].1);
    }
  }

  /** The second loop of a call: each `$i` is looked up in the newest frame
      and moved out, paired with the argument's original reference. */
  method TakeArgsBack(it: EightInterpreter, fnVars: seq<(string, MemRef)>)
    returns (r: Result<seq<(MemRef, Value)>, Fault>)
    requires it.Valid()
    modifies it.Repr
    ensures it.Valid() && it.Repr == old(it.Repr)
    ensures Outcome(r, it.State()) == TakeBack(old(it.State()), fnVars, 0, [])
  {
    ghost var s2 := it.State();
    var modArgs: seq<(MemRef, Value)> := [];
    for j := 0 to |fnVars|
      invariant it.Valid() && it.Repr == old(it.Repr)
      invariant TakeBack(s2, fnVars, 0, []) == TakeBack(it.State(), fnVars, j, modArgs)
    {
      var mem := it.GetValFromFrame(fnVars[j].0);
      if mem.Failure? {
        return Failure(mem.error);
      }
      var v := it.TakeVal(mem.value);
      if v.Failure? {
        return Failure(v.error);
      }
      modArgs := modArgs + [(fnVars[j].1, v.value)];
    }
    r := Success(modArgs);
  }

  /** The third loop of a call: each argument value is bound again where
      the argument came from. */
  method RestoreArgs(it: EightInterpreter, modArgs: seq<(MemRef, Value)>) returns (r: Result<(), Fault>)
    requires it.Valid()
    modifies it.Repr
    ensures it.Valid() && it.Repr == old(it.Repr)
    ensures Done(r, it.State()) == RestoreAll(old(it.State()), modArgs, 0)
  {
    ghost var s3 := it.State();
    for j := 0 to |modArgs|
      invariant it.Valid() && it.Repr == old(it.Repr)
      invariant RestoreAll(s3, modArgs, 0) == RestoreAll(it.State(), modArgs, j)
    {
      var a := it.AddMemToFrame(modArgs[j].0, modArgs[j].1);
      if a.Failure? {
        return Failure(a.error);
      }
    }
    r := Success(());
  }

  /** The argument loop of `CallFunc::run_secondary_expr`: `grab_arg(idx)`
      for `idx` over the original count, each argument run and moved out of
      its place. */
  method CallArgs(it: EightInterpreter, args: seq<Expr>)
    returns (r: Result<(seq<(string, MemRef)>, seq<(string, Value)>), Fault>)
    requires it.Valid()
    modifies it.Repr
    ensures it.Valid() && fresh(it.Repr - old(it.Repr))
    ensures Outcome(r, it.State()) == Reorder(EvalArgs(old(it.State()), args, 0, [], []))
    decreases args, 1
  {
    var fa := new FuncArgs(args);
    var fnVars: seq<(string, MemRef)> := [];
    var fnArgs: seq<(string, Value)> := [];
    ghost var goal := EvalArgs(it.State(), args, 0, [], []);
    var n := |fa.arglist|;
    for idx := 0 to n
      invariant it.Valid() && fresh(it.Repr - old(it.Repr))
      invariant ArgsLoop(it, fa, args, idx, goal, fnVars, fnArgs)
    {
      var d := GrabAndRun(it, fa, args, idx, goal, fnVars, fnArgs);
      if d.Failure? {
        return Failure(d.error);
      }
      var name := ArgName(idx);
      fnVars := fnVars + [(name, d.value.0)];
      fnArgs := fnArgs + [(name, d.value.1)];
    }
    r := Success((fnVars, fnArgs));
  }

  /** The invariant of the argument loop at index `idx`: the list holds
      what `idx` removals leave, and the rest of the loop computes `goal`. */
  ghost predicate ArgsLoop(it: EightInterpreter, fa: FuncArgs, args: seq<Expr>, idx: nat,
                           goal: Result<(Machine, seq<(string, MemRef)>, seq<(string, Value)>), Fault>,
                           vars: seq<(string, MemRef)>, vals: seq<(string, Value)>)
    reads it, it.Repr, fa
  {
    it.Valid() && fa !in it.Repr && idx <= |args| && 2 * idx <= |args| + 1 &&
    fa.arglist == AfterGrabs(args, idx) && goal == EvalArgs(it.State(), args, idx, vars, vals)
  }

  /** One turn of the argument loop against `EvalArgs`: a fault ends it, a
      value moves it to the next index with the argument recorded. */
  lemma ArgsLoopStep(before: Machine, after: Machine, args: seq<Expr>, idx: nat,
                     vars: seq<(string, MemRef)>, vals: seq<(string, Value)>, d: Result<(MemRef, Value), Fault>)
    requires WellFormed(before) && idx < |args|
    requires 2 * idx >= |args| ==> d == Failure(RemovalIndexOutOfRange)
    requires 2 * idx < |args| ==> Outcome(d, after) == EvalArg(before, args[2 * idx])
    ensures d.Failure? ==> EvalArgs(before, args, idx, vars, vals) == Failure(d.error)
    ensures d.Success? ==>
              WellFormed(after) &&
              EvalArgs(before, args, idx, vars, vals) ==
              EvalArgs(after, args, idx + 1, vars + [(ArgName(idx), d.value.0)], vals + [(ArgName(idx), d.value.1)])
  {
    EvalArgsStep(before, args, idx, vars, vals);
  }

  /** One turn of the argument loop: `grab_arg(idx)`, then the argument is
      run and its value taken; the loop invariant moves on to `idx + 1`, or
      the fault is the one `EvalArgs` reports. */
  method GrabAndRun(it: EightInterpreter, fa: FuncArgs, args: seq<Expr>, idx: nat,
                    ghost goal: Result<(Machine, seq<(string, MemRef)>, seq<(string, Value)>), Fault>,
                    ghost vars: seq<(string, MemRef)>, ghost vals: seq<(string, Value)>)
    returns (r: Result<(MemRef, Value), Fault>)
    requires idx < |args| && ArgsLoop(it, fa, args, idx, goal, vars, vals)
    modifies it.Repr, fa
    ensures it.Valid() && fresh(it.Repr - old(it.Repr))
    ensures r.Failure? ==> goal == Failure(r.error)
    ensures r.Success? ==>
              ArgsLoop(it, fa, args, idx + 1, goal, vars + [(ArgName(idx), r.value.0)], vals + [(ArgName(idx), r.value.1)])
    decreases args, 0
  {
    ghost var before := it.State();
    var s := fa.GrabArg(idx);
    if s.Failure? {
      ArgsLoopStep(before, before, args, idx, vars, vals, Failure(s.error));
      return Failure(s.error);
    }
    GrabbedArgument(args, idx);
    r := RunArg(it, s.value);
    ArgsLoopStep(before, it.State(), args, idx, vars, vals, r);
  }

  /** One argument of a call: `step`, then `take_val`. */
  method RunArg(it: EightInterpreter, e: Expr) returns (r: Result<(MemRef, Value), Fault>)
    requires it.Valid()
    modifies it.Repr
    ensures it.Valid() && fresh(it.Repr - old(it.Repr))
    ensures Outcome(r, it.State()) == EvalArg(old(it.State()), e)
    decreases e, 2
  {
    var d := Step(it, e);
    if d.Failure? {
      return Failure(d.error);
    }
    var val := it.TakeVal(d.value);
    if val.Failure? {
      return Failure(val.error);
    }
    r := Success((d.value, val.value));
  }

  /** One turn of `EvalArgs`: a fault of the grab or of the argument ends
      the loop, a value goes on with the next index. */
  lemma EvalArgsStep(m: Machine, args: seq<Expr>, k: nat, vars: seq<(string, MemRef)>, vals: seq<(string, Value)>)
    requires WellFormed(m) && k < |args|
    ensures 2 * k >= |args| ==> EvalArgs(m, args, k, vars, vals) == Failure(RemovalIndexOutOfRange)
    ensures 2 * k < |args| && EvalArg(m, args[2 * k]).Failure? ==>
              EvalArgs(m, args, k, vars, vals) == Failure(EvalArg(m, args[2 * k]).error)
    ensures 2 * k < |args| && EvalArg(m, args[2 * k]).Success? ==>
              var d := EvalArg(m, args[2 * k]).value;
              EvalArgs(m, args, k, vars, vals) ==
              EvalArgs(d.0, args, k + 1, vars + [(ArgName(k), d.1.0)], vals + [(ArgName(k), d.1.1)])
  {
  }

  /** Removal number `k` takes original argument `2k`. */
  lemma GrabbedArgument(args: seq<Expr>, k: nat)
    requires 2 * k < |args|
    ensures AfterGrabs(args, k)[k] == args[2 * k]
  {
    GrabsShape(args, k);
  }

  /** The argument loop's result in the shape `CallArgs` returns it. */
  function Reorder(p: Result<(Machine, seq<(string, MemRef)>, seq<(string, Value)>), Fault>)
    : Result<(Machine, (seq<(string, MemRef)>, seq<(string, Value)>)), Fault>
  {
    match p
    case Success(t) => Success((t.0, (t.1, t.2)))
    case Failure(f) => Failure(f)
  }

  /** Runs a built-in function on the interpreter (`func(interpreter)`). */
  method Call(it: EightInterpreter, b: Builtin) returns (r: Result<MemRef, Fault>)
    requires it.Valid()
    modifies it.Repr
    ensures it.Valid() && it.Repr == old(it.Repr)
    ensures Outcome(r, it.State()) == RunBuiltin(old(it.State()), b)
  {
    match b
    case ReturnEmpty =>
      r := Success(EmptyMem);
    case CsvOpen =>
      var v := it.GetVal(FrameMem("$0"));
      if v.Failure? {
        return Failure(v.error);
      }
      var s := ImplicitString(v.value);
      if s.Failure? {
        return Failure(s.error);
      }
      r := it.AddValToStack(NamespaceVal(DatabaseCsv(s.value)));
    case ThreadPoolNew =>
      var v := it.GetVal(FrameMem("$0"));
      if v.Failure? {
        return Failure(v.error);
      }
      var n := ImplicitNumber(v.value);
      if n.Failure? {
        return Failure(n.error);
      }
      r := it.AddValToStack(NamespaceVal(ThreadPoolOf(n.value)));
  }

  /** `Variable::run_expr`. */
  method RunVariable(it: EightInterpreter, name: string, value: Expr) returns (r: Result<(), Fault>)
    requires it.Valid()
    modifies it.Repr
    ensures it.Valid() && fresh(it.Repr - old(it.Repr))
    ensures Done(r, it.State()) == RunExpr(old(it.State()), VariableTokenExpr(name, value))
  {
    var v := Step(it, value);
    if v.Failure? {
      return Failure(v.error);
    }
    var val := it.TakeVal(v.value);
    if val.Failure? {
      return Failure(val.error);
    }
    it.AddValToFrame(name, val.value);
    r := Success(());
  }

  /** `Print::run_expr`. */
  method RunPrint(it: EightInterpreter, es: seq<Expr>) returns (r: Result<(), Fault>)
    requires it.Valid()
    modifies it.Repr
    ensures it.Valid() && fresh(it.Repr - old(it.Repr))
    ensures Done(r, it.State()) == EvalPrint(old(it.State()), es, 0, "")
  {
    var outStr := "";
    for i := 0 to |es|
      invariant it.Valid() && fresh(it.Repr - old(it.Repr))
      invariant EvalPrint(old(it.State()), es, 0, "") == EvalPrint(it.State(), es, i, outStr)
    {
      var val := Step(it, es[i]);
      if val.Failure? {
        return Failure(val.error);
      }
      var v := it.GetVal(val.value);
      if v.Failure? {
        return Failure(v.error);
      }
      var s := ImplicitString(v.value);
      if s.Failure? {
        return Failure(s.error);
      }
      outStr := outStr + s.value;
      var p := it.PopStackVals(val.value);
      if p.Failure? {
        return Failure(p.error);
      }
    }
    it.WriteLine(outStr);
    r := Success(());
  }

  /** `Expression::run_expr`. */
  method RunExpression(it: EightInterpreter, x: Expression) returns (r: Result<(), Fault>)
    requires it.Valid()
    modifies it.Repr
    ensures it.Valid() && fresh(it.Repr - old(it.Repr))
    ensures Done(r, it.State()) == RunExpr(old(it.State()), x)
  {
    match x
    case VariableTokenExpr(name, v) =>
      r := RunVariable(it, name, v);
    case PrintExpr(args) =>
      r := RunPrint(it, args);
    case ReturnExpr(_) =>
      r := Failure(NotImplemented);
    case EndParsingExpr =>
      r := Failure(NotImplemented);
  }

  /** `EightInterpreter::run`: removes and runs the first statement, as many
      times as there were statements. */
  method Run(it: EightInterpreter, exprs: seq<Expression>) returns (r: Result<(), Fault>)
    requires it.Valid()
    modifies it.Repr
    ensures it.Valid() && fresh(it.Repr - old(it.Repr))
    ensures Done(r, it.State()) == RunAll(old(it.State()), exprs)
  {
    var rest := exprs;
    var l := |rest|;
    for k := 0 to l
      invariant it.Valid() && fresh(it.Repr - old(it.Repr))
      invariant |rest| + k == l
      invariant RunAll(old(it.State()), exprs) == RunAll(it.State(), rest)
    {
      var ex := rest[0];
      rest := rest[1..];
      r := RunExpression(it, ex);
      if r.Failure? {
        return;
      }
    }
    r := Success(());
  }

  /** Rust's `/` and `%` on integers: the quotient rounds toward zero, and
      the remainder keeps the sign of the dividend and is smaller than the
      divisor in magnitude. */
  lemma TruncDivision(a: int, b: int)
    requires b != 0
    ensures a == b * TruncDiv(a, b) + TruncRem(a, b)
    ensures Abs(TruncRem(a, b)) < Abs(b)
    ensures TruncRem(a, b) == 0 || (TruncRem(a, b) < 0 <==> a < 0)
    ensures Abs(TruncDiv(a, b)) == Abs(a) / Abs(b)
  {
    var aa, bb := Abs(a), Abs(b);
    var q: int := aa / bb;
    var t := TruncDiv(a, b);
    var p: int := bb * q;
    DivFacts(aa, bb);
    if b < 0 {
      MulNeg(bb, t);
      if a < 0 { assert t == q; assert b * t == -p; } else { assert t == -q; MulNeg(bb, q); assert b * t == p; }
    } else {
      if a < 0 { assert t == -q; MulNeg(bb, q); assert b * t == -p; } else { assert t == q; assert b * t == p; }
    }
  }

  lemma DivFacts(aa: nat, bb: int)
    requires bb > 0
    ensures aa == bb * (aa / bb) + aa % bb && 0 <= aa % bb < bb && aa / bb >= 0
  {
  }

  lemma MulNeg(x: int, y: int)
    ensures (-x) * y == -(x * y) && x * (-y) == -(x * y) && (-x) * (-y) == x * y
  {
  }

  /** `-7 / 2` is `-3` and `-7 % 2` is `-1`, unlike Euclidean division;
      `i32::MIN / -1` and `i32::MIN % -1` overflow. */
  lemma DivisionExamples()
    ensures Arith(Divide, -7, 2) == Success(-3)
    ensures Arith(Modulo, -7, 2) == Success(-1)
    ensures Arith(Divide, I32Min as I32, -1) == Failure(Overflow)
    ensures Arith(Modulo, I32Min as I32, -1) == Failure(Overflow)
  {
    assert TruncDiv(-7, 2) == -3;
  }

  /** The expression runs no function call. */
  predicate CallFree(e: Expr) {
    match e
    case BinaryOperation(l, r, _) => CallFree(l) && CallFree(r)
    case CallResult(_, _) => false
    case FormatExpr(es) => forall i :: 0 <= i < |es| ==> CallFree(es[i])
    case ParenExpr(i) => CallFree(i)
    case _ => true
  }

  /** Every slot of `s` is still there, with its value, in `s2`. */
  predicate Extends(s: map<int, Value>, s2: map<int, Value>) {
    forall k :: k in s ==> k in s2 && s2[k] == s[k]
  }

  /** What running a call-free expression may do to the state: nothing to
      the frames and the output, and nothing to the stack but add slots;
      a stack result is one of the new slots. */
  predicate Settled(m: Machine, m2: Machine, ref: MemRef) {
    m2.frames == m.frames && m2.out == m.out && Extends(m.stack, m2.stack) &&
    (ref.StackMem? ==> ref.idx !in m.stack && ref.idx in m2.stack)
  }

  /** Running a call-free expression leaves the frames, the output and
      every occupied stack slot alone, and its result, when on the stack,
      is in a slot that was free. */
  lemma {:induction false} EvalSettled(m: Machine, e: Expr)
    requires WellFormed(m) && CallFree(e) && Eval(m, e).Success?
    ensures Settled(m, Eval(m, e).value.0, Eval(m, e).value.1)
    decreases e, 1
  {
    match e
    case BinaryOperation(lhs, rhs, op) =>
      EvalSettled(m, lhs);
      var a := Eval(m, lhs).value;
      EvalSettled(a.0, rhs);
      var b := Eval(a.0, rhs).value;
      var m1 := MPopStackVals(b.0, a.1).value;
      var m2 := MPopStackVals(m1, b.1).value;
      assert Extends(m.stack, m1.stack);
      assert Extends(m.stack, m2.stack);
    case ParenExpr(i) =>
      EvalSettled(m, i);
    case FormatExpr(es) =>
      EvalFormatSettled(m, es, 0, "");
    case _ =>
  }

  lemma {:induction false} EvalFormatSettled(m: Machine, es: seq<Expr>, i: nat, acc: string)
    requires WellFormed(m) && i <= |es| && EvalFormat(m, es, i, acc).Success?
    requires forall j :: i <= j < |es| ==> CallFree(es[j])
    ensures Settled(m, EvalFormat(m, es, i, acc).value.0, EvalFormat(m, es, i, acc).value.1)
    decreases es, 0, |es| - i
  {
    if i < |es| {
      EvalSettled(m, es[i]);
      var a := Eval(m, es[i]).value;
      var v := MGetVal(a.0, a.1).value;
      var m1 := MPopStackVals(a.0, a.1).value;
      assert Extends(m.stack, m1.stack);
      EvalFormatSettled(m1, es, i + 1, acc + ExplicitString(v).value);
    }
  }

  /** The expressions whose static type the evaluator respects: no call,
      no `==`, and every variable they read bound to a value of the type it
      was declared with. */
  predicate Sound(vars: map<string, Value>, e: Expr) {
    match e
    case Reference(n, t) => n in vars ==> ConvertToType(vars[n]) == t
    case BinaryOperation(l, r, op) => op != EqualityCheck && Sound(vars, l) && Sound(vars, r)
    case ParenExpr(i) => Sound(vars, i)
    case CallResult(_, _) => false
    case FormatExpr(es) => forall i :: 0 <= i < |es| ==> CallFree(es[i])
    case _ => true
  }

  lemma {:induction false} SoundIsCallFree(vars: map<string, Value>, e: Expr)
    requires Sound(vars, e)
    ensures CallFree(e)
  {
    match e
    case BinaryOperation(l, r, _) =>
      SoundIsCallFree(vars, l);
      SoundIsCallFree(vars, r);
    case ParenExpr(i) =>
      SoundIsCallFree(vars, i);
    case _ =>
  }

  /** Type soundness: when such an expression has a static type and runs
      without a fault, the value its result designates has that type. */
  lemma {:induction false} EvalTypeSound(m: Machine, e: Expr)
    requires WellFormed(m) && Sound(m.frames[0], e) && GetType(e).Success? && Eval(m, e).Success?
    ensures MGetVal(Eval(m, e).value.0, Eval(m, e).value.1).Success?
    ensures ConvertToType(MGetVal(Eval(m, e).value.0, Eval(m, e).value.1).value) == GetType(e).value
    decreases e
  {
    match e
    case BinaryOperation(lhs, rhs, op) =>
      SoundIsCallFree(m.frames[0], lhs);
      SoundIsCallFree(m.frames[0], rhs);
      EvalSettled(m, lhs);
      var a := Eval(m, lhs).value;
      EvalSettled(a.0, rhs);
      var b := Eval(a.0, rhs).value;
      EvalTypeSound(m, lhs);
      assert MGetVal(b.0, a.1) == MGetVal(a.0, a.1);
      var lv := MGetVal(b.0, a.1).value;
      assert ImplicitNumber(lv).Success?;
    case ParenExpr(i) =>
      EvalTypeSound(m, i);
    case FormatExpr(es) =>
      FormatYieldsString(m, es, 0, "");
    case _ =>
  }

  /** `fmt` always results in a String on the stack. */
  lemma {:induction false} FormatYieldsString(m: Machine, es: seq<Expr>, i: nat, acc: string)
    requires WellFormed(m) && i <= |es| && EvalFormat(m, es, i, acc).Success?
    ensures MGetVal(EvalFormat(m, es, i, acc).value.0, EvalFormat(m, es, i, acc).value.1).Success?
    ensures ConvertToType(MGetVal(EvalFormat(m, es, i, acc).value.0, EvalFormat(m, es, i, acc).value.1).value) == StringType
    decreases |es| - i
  {
    if i < |es| {
      var a := Eval(m, es[i]).value;
      var v := MGetVal(a.0, a.1).value;
      var m1 := MPopStackVals(a.0, a.1).value;
      FormatYieldsString(m1, es, i + 1, acc + ExplicitString(v).value);
    }
  }

  /** `==` breaks type soundness: its static type is its operands' type,
      but its value is a boolean. `1 == 1` is typed as a Number and
      evaluates to `true`. */
  lemma EqualityTypeMismatch(m: Machine, l: Expr, r: Expr)
    requires WellFormed(m)
    ensures Eval(m, BinaryOperation(l, r, EqualityCheck)).Success? ==>
              var p := Eval(m, BinaryOperation(l, r, EqualityCheck)).value;
              MGetVal(p.0, p.1).Success? && ConvertToType(MGetVal(p.0, p.1).value) == BooleanType
    ensures GetType(BinaryOperation(l, r, EqualityCheck)).Success? ==>
              GetType(BinaryOperation(l, r, EqualityCheck)) == GetType(l)
    ensures GetType(BinaryOperation(Num(1), Num(1), EqualityCheck)) == Success(NumberType)
    ensures Eval(Machine([map[]], map[], []), BinaryOperation(Num(1), Num(1), EqualityCheck))
            == Success((Machine([map[]], map[0 := LiteralVal(Boolean(true))], []), StackMem(0)))
  {
    EqualityYieldsBoolean(m, l, r);
    OneEqualsOne();
  }

  /** A `==` that succeeds leaves a boolean behind. */
  lemma EqualityYieldsBoolean(m: Machine, l: Expr, r: Expr)
    requires WellFormed(m)
    ensures Eval(m, BinaryOperation(l, r, EqualityCheck)).Success? ==>
              var p := Eval(m, BinaryOperation(l, r, EqualityCheck)).value;
              MGetVal(p.0, p.1).Success? && ConvertToType(MGetVal(p.0, p.1).value) == BooleanType
  {
  }

  /** `1 == 1` on a fresh interpreter leaves `true` in slot 0. */
  lemma OneEqualsOne()
    ensures Eval(Machine([map[]], map[], []), BinaryOperation(Num(1), Num(1), EqualityCheck))
            == Success((Machine([map[]], map[0 := LiteralVal(Boolean(true))], []), StackMem(0)))
  {
    assert LowestFree(map[]) == Success(0);
    var one := LiteralVal(Number(1));
    assert LowestFree(map[0 := one]) == Success(1) by {
      assert LowestFreeFrom(map[0 := one], 1) == Success(1);
    }
    assert (map[0 := one][1 := one] - {0}) - {1} == map[];
  }

  /** The literal `n`. */
  function Num(n: I32): Expr {
    LiteralExpr(Number(n))
  }

  /** Two number literals combine like `Arith`, and the operand slots are
      given back: the state is the original one with the result pushed. */
  lemma LiteralArithmetic(m: Machine, a: I32, b: I32, op: BinaryOp)
    requires WellFormed(m) && op != EqualityCheck
    requires Eval(m, BinaryOperation(Num(a), Num(b), op)).Success?
    ensures Arith(op, a, b).Success?
    ensures Eval(m, BinaryOperation(Num(a), Num(b), op)) == MAddValToStack(m, LiteralVal(Number(Arith(op, a, b).value)))
  {
    var p := Eval(m, Num(a)).value;
    var q := Eval(p.0, Num(b)).value;
    PushTwiceThenPop(m, LiteralVal(Number(a)), LiteralVal(Number(b)));
  }

  /** Number literals. */
  function Lits(ss: seq<string>): (es: seq<Expr>)
    ensures |es| == |ss|
    ensures forall i :: 0 <= i < |ss| ==> es[i] == LiteralExpr(Str(ss[i]))
  {
    seq(|ss|, i requires 0 <= i < |ss| => LiteralExpr(Str(ss[i])))
  }

  /** The strings one after the other, with no separator. */
  function Concat(ss: seq<string>): string {
    if ss == [] then "" else ss[0] + Concat(ss[1..])
  }

  /** `print` of string literals writes one line, their concatenation, and
      leaves the stack and the frames as they were. */
  lemma {:induction false} PrintConcatenates(m: Machine, ss: seq<string>, i: nat, acc: string)
    requires WellFormed(m) && i <= |ss| && LowestFree(m.stack).Success?
    ensures EvalPrint(m, Lits(ss), i, acc) == Success(m.(out := m.out + [acc + Concat(ss[i..])]))
    decreases |ss| - i
  {
    if i < |ss| {
      var v := LiteralVal(Str(ss[i]));
      StackValueRoundTrip(m, v);
      var a := MAddValToStack(m, v).value;
      assert Eval(m, Lits(ss)[i]) == Success(a);
      assert MPopStackVals(a.0, a.1) == Success(m);
      PrintConcatenates(m, ss, i + 1, acc + ss[i]);
      assert ss[i..][0] == ss[i] && ss[i..][1..] == ss[i + 1..];
      assert Concat(ss[i..]) == ss[i] + Concat(ss[i + 1..]);
      assert acc + Concat(ss[i..]) == (acc + ss[i]) + Concat(ss[i + 1..]);
    } else {
      assert ss[i..] == [];
      assert acc + Concat(ss[i..]) == acc;
    }
  }

  /** `fmt` of string literals pushes their concatenation and nothing
      else. */
  lemma {:induction false} FormatConcatenates(m: Machine, ss: seq<string>, i: nat, acc: string)
    requires WellFormed(m) && i <= |ss| && LowestFree(m.stack).Success?
    ensures EvalFormat(m, Lits(ss), i, acc) == MAddValToStack(m, LiteralVal(Str(acc + Concat(ss[i..]))))
    decreases |ss| - i
  {
    if i < |ss| {
      var v := LiteralVal(Str(ss[i]));
      StackValueRoundTrip(m, v);
      var a := MAddValToStack(m, v).value;
      assert Eval(m, Lits(ss)[i]) == Success(a);
      assert MPopStackVals(a.0, a.1) == Success(m);
      FormatConcatenates(m, ss, i + 1, acc + ss[i]);
      assert ss[i..][0] == ss[i] && ss[i..][1..] == ss[i + 1..];
      assert Concat(ss[i..]) == ss[i] + Concat(ss[i + 1..]);
      assert acc + Concat(ss[i..]) == (acc + ss[i]) + Concat(ss[i + 1..]);
    } else {
      assert ss[i..] == [];
      assert acc + Concat(ss[i..]) == acc;
    }
  }

  /** `print` accepts only String values: a number argument is a fault. */
  lemma PrintRejectsNumbers(m: Machine, n: I32)
    requires WellFormed(m) && LowestFree(m.stack).Success?
    ensures RunExpr(m, PrintExpr([Num(n)])) == Failure(CannotCastToString)
  {
    InsertThenTake(m.stack, LiteralVal(Number(n)));
  }

  /** `let y = x;` moves `x`: the name `x` is unbound from the newest frame
      and its value goes to `y`, or is dropped when `y` is already bound. */
  lemma LetMovesVariable(m: Machine, y: string, x: string, t: ValueType)
    requires WellFormed(m) && x in m.frames[0] && y != x
    ensures RunExpr(m, VariableTokenExpr(y, Reference(x, t)))
            == Success(m.(frames := m.frames[0 := AddVarTo(m.frames[0] - {x}, y, m.frames[0][x])]))
    ensures y !in m.frames[0] ==>
              RunExpr(m, VariableTokenExpr(y, Reference(x, t))).value.frames[0]
              == (m.frames[0] - {x})[y := m.frames[0][x]]
    ensures x !in RunExpr(m, VariableTokenExpr(y, Reference(x, t))).value.frames[0]
  {
    var f0 := m.frames[0];
    assert Eval(m, Reference(x, t)) == Success((m, FrameMem(x)));
    var m1 := m.(frames := m.frames[0 := f0 - {x}]);
    assert MTakeVal(m, FrameMem(x)) == Success((m1, f0[x]));
    assert m1.frames[0 := AddVarTo(m1.frames[0], y, f0[x])] == m.frames[0 := AddVarTo(f0 - {x}, y, f0[x])];
  }

  /** Declaring a name again keeps its old value, and the new value's stack
      slot is given back: the state does not change. */
  lemma RedeclarationKeepsValue(m: Machine, n: string, l: Literal)
    requires WellFormed(m) && n in m.frames[0] && LowestFree(m.stack).Success?
    ensures RunExpr(m, VariableTokenExpr(n, LiteralExpr(l))) == Success(m)
  {
    InsertThenTake(m.stack, LiteralVal(l));
    FrameValueRoundTrip(m, n, LiteralVal(l));
  }

  /** Calling a built-in with no arguments that returns the empty reference
      does not give the frames back: the call's empty frame stays and the
      oldest frame is dropped, so from the top level every variable is
      lost. */
  lemma EmptyCallDropsOldestFrame(m: Machine, name: string, sig: FuncSignature)
    requires WellFormed(m)
    ensures Eval(m, CallResult(Func(name, sig, BuiltInFunc(ReturnEmpty)), []))
            == Success((m.(frames := [map[]] + m.frames[..|m.frames| - 1]), EmptyMem))
  {
    NewThenPopDropsOldest(m);
  }

  /** A call with two or more arguments always faults: the argument loop
      indexes past the end of the shrinking list. */
  lemma CallsWithTwoArgumentsFail(m: Machine, f: Func, args: seq<Expr>)
    requires WellFormed(m) && |args| >= 2
    ensures Eval(m, CallResult(f, args)).Failure?
  {
    if f.content.BuiltInFunc? {
      ArgsFail(m, args, 0, [], []);
    }
  }

  lemma {:induction false} ArgsFail(m: Machine, args: seq<Expr>, k: nat, vars: seq<(string, MemRef)>, vals: seq<(string, Value)>)
    requires WellFormed(m) && |args| >= 2 && k < |args|
    ensures EvalArgs(m, args, k, vars, vals).Failure?
    decreases |args| - k
  {
    if 2 * k < |args| {
      var d := EvalArg(m, args[2 * k]);
      if d.Success? {
        ArgsFail(d.value.0, args, k + 1, vars + [(ArgName(k), d.value.1.0)], vals + [(ArgName(k), d.value.1.1)]);
      }
    }
  }

  /** `ThreadPool::new(n)` from the top level: the count reaches the
      built-in as `$0`, the pool (with the count cut to 8 bits) is pushed
      into the slot the argument used, and the caller's frame is replaced
      by the call's emptied frame. */
  lemma ThreadPoolCall(m: Machine, n: I32)
    requires WellFormed(m) && |m.frames| == 1 && LowestFree(m.stack).Success?
    ensures Eval(m, CallResult(Func("new", ThreadPoolSignature, BuiltInFunc(ThreadPoolNew)), [Num(n)]))
            == Success((Machine([map[]], m.stack[LowestFree(m.stack).value := NamespaceVal(ThreadPoolOf(n))], m.out),
                        StackMem(LowestFree(m.stack).value)))
  {
    var i := LowestFree(m.stack).value;
    SingleArgument(m, n);
    ThreadPoolBody(m, n, i);
  }

  /** A single literal argument is pushed into the lowest free slot and
      moved out again: the state is unchanged and `$0` holds the value. */
  lemma SingleArgument(m: Machine, n: I32)
    requires WellFormed(m) && LowestFree(m.stack).Success?
    ensures EvalArgs(m, [Num(n)], 0, [], []) ==
            Success((m, [("$0", StackMem(LowestFree(m.stack).value))], [("$0", LiteralVal(Number(n)))]))
  {
    var i := LowestFree(m.stack).value;
    var v := LiteralVal(Number(n));
    StackValueRoundTrip(m, v);
    assert ArgName(0) == "$0";
    assert MAddValToStack(m, v) == Success((m.(stack := m.stack[i := v]), StackMem(i)));
    assert EvalArg(m, Num(n)) == Success((m, (StackMem(i), v)));
    assert EvalArgs(m, [Num(n)], 1, [("$0", StackMem(i))], [("$0", v)]) == Success((m, [("$0", StackMem(i))], [("$0", v)]));
    var args := [Num(n)];
    assert args[2 * 0] == Num(n);
    assert EvalArgs(m, args, 0, [], []) == EvalArgs(m, args, 1, [] + [(ArgName(0), StackMem(i))], [] + [(ArgName(0), v)]);
    assert [] + [(ArgName(0), StackMem(i))] == [("$0", StackMem(i))];
    assert [] + [(ArgName(0), v)] == [("$0", v)];
  }

  /** `ThreadPool::new` with the count bound as `$0` in a single frame:
      the pool goes into the lowest free slot and the frame list ends as
      one empty frame. */
  lemma ThreadPoolBody(m: Machine, n: I32, i: int)
    requires WellFormed(m) && |m.frames| == 1 && LowestFree(m.stack) == Success(i)
    ensures CallBody(m, ThreadPoolNew, [("$0", StackMem(i))], [("$0", LiteralVal(Number(n)))]) ==
            Success((Machine([map[]], m.stack[i := NamespaceVal(ThreadPoolOf(n))], m.out), StackMem(i)))
  {
    var v := LiteralVal(Number(n));
    assert AddVarTo(map[], "$0", v) == map["$0" := v];
    assert ([map[]] + m.frames)[0 := AddVarTo(map[], "$0", v)] == [map["$0" := v]] + m.frames;
    var m0 := MNewFrame(m);
    assert AddAll(m0, [("$0", v)], 0) == AddAll(MAddValToFrame(m0, "$0", v), [("$0", v)], 1);
    var m1 := AddAll(m0, [("$0", v)], 0);
    assert m1 == m.(frames := [map["$0" := v]] + m.frames);
    var q := RunBuiltin(m1, ThreadPoolNew);
    assert q == Success((m1.(stack := m.stack[i := NamespaceVal(ThreadPoolOf(n))]), StackMem(i)));
    assert map["$0" := v] - {"$0"} == map[];
    var q0 := q.value.0;
    assert MGetValFromFrame(q0, "$0") == Success(FrameMem("$0"));
    assert q0.frames[0 := map[]] == [map[]] + m.frames;
    assert MTakeVal(q0, FrameMem("$0")) == Success((q0.(frames := [map[]] + m.frames), v));
    assert [] + [(StackMem(i), v)] == [(StackMem(i), v)];
    var q1 := q0.(frames := [map[]] + m.frames);
    assert TakeBack(q0, [("$0", StackMem(i))], 0, []) == TakeBack(q1, [("$0", StackMem(i))], 1, [] + [(StackMem(i), v)]);
    var s := TakeBack(q0, [("$0", StackMem(i))], 0, []);
    assert s == Success((q1, [(StackMem(i), v)]));
    var s0 := MPopOrClearFrame(s.value.0);
    assert s0.frames == [map[]];
    assert RestoreAll(s0, [(StackMem(i), v)], 0) == Success(s0);
  }

  /** Running statements one list after the other is running the joined
      list. */
  lemma {:induction false} RunAllAppend(m: Machine, xs: seq<Expression>, ys: seq<Expression>)
    requires WellFormed(m)
    ensures RunAll(m, xs + ys) == (match RunAll(m, xs) case Success(m1) => RunAll(m1, ys) case Failure(f) => Failure(f))
    decreases |xs|
  {
    if xs != [] {
      assert (xs + ys)[0] == xs[0] && (xs + ys)[1..] == xs[1..] + ys;
      var r := RunExpr(m, xs[0]);
      if r.Success? {
        RunAllAppend(r.value, xs[1..], ys);
      }
    } else {
      assert xs + ys == ys;
    }
  }
}
