/** Built-in functions at parse time (literals/basic/functions.rs,
    functions/args.rs, functions/signature.rs, and the class functions of
    values/namespaces/database.rs and values/namespaces/stdlib/threads.rs):
    argument lists, signature matching, and the calls `Database::csv` and
    `ThreadPool::new` build. */
module Functions {
  import opened Wrappers
  import opened Values
  import opened Expressions

  /** `FuncSignature::new_from_value`: the argument types are copied one by
      one, in order. */
  method NewFromValue(data: seq<ValueType>, output: ValueType) returns (sig: FuncSignature)
    ensures sig.arglist == data && sig.output == output
  {
    var v: seq<ValueType> := [];
    for i := 0 to |data|
      invariant v == data[..i]
    {
      v := v + [data[i]];
    }
    sig := FuncSignature(v, output);
  }

  /** What `match_signature` accepts: as many arguments as the signature
      has, each of the declared type. */
  predicate ArgsMatch(sig: FuncSignature, args: seq<Expr>) {
    |args| == |sig.arglist| &&
    forall i :: 0 <= i < |args| ==> GetType(args[i]) == Success(sig.arglist[i])
  }

  /** `match_signature` as a value: an arity error first, then the first
      argument whose type is unknown or differs. */
  function SignatureCheck(sig: FuncSignature, args: seq<Expr>): Result<(), SignatureError> {
    if |args| != |sig.arglist| then Failure(ArityMismatch) else CheckFrom(sig.arglist, args, 0)
  }

  function CheckFrom(types: seq<ValueType>, args: seq<Expr>, i: nat): Result<(), SignatureError>
    requires |types| == |args| && i <= |args|
    decreases |args| - i
  {
    if i == |args| then Success(())
    else
      match GetType(args[i])
      case Failure(e) => Failure(ArgumentUntyped(e))
      case Success(t) => if t == types[i] then CheckFrom(types, args, i + 1) else Failure(ArgumentMismatch(i, t, types[i]))
  }

  /** The scan from index `i` fails exactly at the first argument from `i`
      on that does not have its declared type. */
  lemma {:induction false} CheckFromMeaning(types: seq<ValueType>, args: seq<Expr>, i: nat)
    requires |types| == |args| && i <= |args|
    ensures CheckFrom(types, args, i).Success? <==>
              forall j :: i <= j < |args| ==> GetType(args[j]) == Success(types[j])
    ensures CheckFrom(types, args, i).Failure? ==>
              exists j :: i <= j < |args| && FirstBad(types, args, i, j, CheckFrom(types, args, i).error)
    decreases |args| - i
  {
    if i < |args| {
      CheckFromMeaning(types, args, i + 1);
      var r := CheckFrom(types, args, i);
      if GetType(args[i]).Success? && GetType(args[i]).value == types[i] && r.Failure? {
        var j :| i + 1 <= j < |args| && FirstBad(types, args, i + 1, j, r.error);
        assert FirstBad(types, args, i, j, r.error);
      } else if r.Failure? {
        assert FirstBad(types, args, i, i, r.error);
      }
    }
  }

  /** Index `j` is the first argument from `from` on without its declared
      type, and `err` reports it: an unknown type, or the given and the
      expected type at `j`. */
  predicate FirstBad(types: seq<ValueType>, args: seq<Expr>, from: nat, j: nat, err: SignatureError)
    requires |types| == |args| && from <= j < |args|
  {
    (forall k :: from <= k < j ==> GetType(args[k]) == Success(types[k])) &&
    match GetType(args[j])
    case Failure(e) => err == ArgumentUntyped(e)
    case Success(t) => t != types[j] && err == ArgumentMismatch(j, t, types[j])
  }

  /** `match_signature` succeeds exactly on matching arguments; it reports an
      arity mismatch when the counts differ, and otherwise the first
      argument whose type is unknown or wrong, with the given and the
      expected type. */
  lemma SignatureCheckMeaning(sig: FuncSignature, args: seq<Expr>)
    ensures SignatureCheck(sig, args).Success? <==> ArgsMatch(sig, args)
    ensures |args| != |sig.arglist| ==> SignatureCheck(sig, args) == Failure(ArityMismatch)
    ensures |args| == |sig.arglist| && SignatureCheck(sig, args).Failure? ==>
              exists j :: 0 <= j < |args| && FirstBad(sig.arglist, args, 0, j, SignatureCheck(sig, args).error)
  {
    if |args| == |sig.arglist| {
      CheckFromMeaning(sig.arglist, args, 0);
    }
  }

  /** `match_signature`: the length check, then a loop with the counter
      `i` over the arguments. */
  method MatchSignature(sig: FuncSignature, args: seq<Expr>) returns (r: Result<(), SignatureError>)
    ensures r == SignatureCheck(sig, args)
  {
    if |args| != |sig.arglist| {
      return Failure(ArityMismatch);
    }
    var i := 0;
    while i < |args|
      invariant 0 <= i <= |args|
      invariant CheckFrom(sig.arglist, args, 0) == CheckFrom(sig.arglist, args, i)
    {
      var sigArg := sig.arglist[i];
      match GetType(args[i])
      case Success(m) =>
        if m == sigArg {
          i := i + 1;
        } else {
          return Failure(ArgumentMismatch(i, m, sigArg));
        }
      case Failure(s) =>
        return Failure(ArgumentUntyped(s));
    }
    r := Success(());
  }

  /** `FuncSignature::empty` takes no argument: it accepts exactly the
      empty argument list. */
  lemma EmptySignatureTakesNothing(args: seq<Expr>)
    ensures SignatureCheck(EmptySignature, args).Success? <==> args == []
    ensures args != [] ==> SignatureCheck(EmptySignature, args) == Failure(ArityMismatch)
  {
  }

  /** `match_output`: the given output type must be the declared one. */
  function MatchOutput(sig: FuncSignature, output: ValueType): (r: Result<(), SignatureError>)
    ensures r.Success? <==> output == sig.output
    ensures r.Failure? ==> r.error == OutputMismatch(output, sig.output)
  {
    if output != sig.output then Failure(OutputMismatch(output, sig.output)) else Success(())
  }

  /** `FuncArgs`: the argument expressions of a call, consumed one by one
      while the call runs. */
  class FuncArgs {
    var arglist: seq<Expr>

    /** `FuncArgs::new`. */
    constructor (v: seq<Expr>)
      ensures arglist == v
    {
      arglist := v;
    }

    /** `FuncArgs::empty`. */
    constructor Empty()
      ensures arglist == []
    {
      arglist := [];
    }

    /** `grab_arg`: `Vec::remove`, which panics on an index past the end. */
    method GrabArg(idx: nat) returns (r: Result<Expr, Fault>)
      modifies this
      ensures idx < |old(arglist)| ==> r == Success(old(arglist)[idx]) && arglist == Remove(old(arglist), idx)
      ensures idx >= |old(arglist)| ==> r == Failure(RemovalIndexOutOfRange) && arglist == old(arglist)
    {
      if idx >= |arglist| {
        return Failure(RemovalIndexOutOfRange);
      }
      r := Success(arglist[idx]);
      arglist := arglist[..idx] + arglist[idx + 1..];
    }
  }

  /** The list without its element at `i`, later elements shifted down. */
  function Remove<T>(s: seq<T>, i: nat): (r: seq<T>)
    requires i < |s|
    ensures |r| == |s| - 1
    ensures multiset(r) + multiset{s[i]} == multiset(s)
  {
    assert s == s[..i] + [s[i]] + s[i + 1..];
    s[..i] + s[i + 1..]
  }

  /** The argument list after the call loop's removals at indices
      `0, 1, …, k - 1`, each made on what the previous one left. */
  function AfterGrabs<T>(s: seq<T>, k: nat): (r: seq<T>)
    requires 2 * k <= |s| + 1
    ensures |r| == |s| - k
  {
    if k == 0 then s else Remove(AfterGrabs(s, k - 1), k - 1)
  }

  /** After `k` removals the list holds the elements at the odd positions
      below `2k`, then the untouched rest: so removal number `k` takes
      original argument `2k`, every other argument is skipped, and a list
      of `n` arguments runs out at removal number `ceil(n / 2)`. */
  lemma {:induction false} GrabsShape<T>(s: seq<T>, k: nat)
    requires 2 * k <= |s|
    ensures forall j :: 0 <= j < k ==> AfterGrabs(s, k)[j] == s[2 * j + 1]
    ensures forall j :: k <= j < |s| - k ==> AfterGrabs(s, k)[j] == s[j + k]
  {
    if k > 0 {
      GrabsShape(s, k - 1);
    }
  }

  /** `generate_func`: the arguments must match the signature; the call
      then holds a built-in function with that name and signature, and has
      the signature's output type. */
  function GenerateFunc(name: string, args: seq<Expr>, sig: FuncSignature, builtin: Builtin)
    : (r: Result<Expr, SignatureError>)
    ensures r.Success? <==> ArgsMatch(sig, args)
    ensures r.Success? ==> r.value == CallResult(Func(name, sig, BuiltInFunc(builtin)), args)
    ensures r.Success? ==> GetType(r.value) == Success(sig.output)
    ensures r.Failure? ==> Failure(r.error) == SignatureCheck(sig, args)
  {
    SignatureCheckMeaning(sig, args);
    match SignatureCheck(sig, args)
    case Failure(s) => Failure(s)
    case Success(_) => Success(CallResult(Func(name, sig, BuiltInFunc(builtin)), args))
  }

  /** The signature of `Database::csv`: a file name in, a CSV handle out. */
  const CsvSignature: FuncSignature := FuncSignature([StringType], NamespaceValType(DatabaseCsvType))

  /** The signature of `ThreadPool::new`: a thread count in, a pool out. */
  const ThreadPoolSignature: FuncSignature := FuncSignature([NumberType], NamespaceValType(ThreadPoolType))

  /** `CSV::create_class_func_call`: only `csv` exists, and it takes exactly
      one String argument. */
  function CreateCsvCall(name: string, args: seq<Expr>): (r: Result<Expr, SignatureError>)
    ensures r.Success? <==> name == "csv" && |args| == 1 && GetType(args[0]) == Success(StringType)
    ensures r.Success? ==> r.value == CallResult(Func("csv", CsvSignature, BuiltInFunc(CsvOpen)), args)
    ensures name != "csv" ==> r == Failure(FunctionNotFound(name))
  {
    if name == "csv" then GenerateFunc(name, args, CsvSignature, CsvOpen)
    else Failure(FunctionNotFound(name))
  }

  /** `ThreadPool::create_class_func_call`: only `new` exists, and it takes
      exactly one Number argument. */
  function CreateThreadPoolCall(name: string, args: seq<Expr>): (r: Result<Expr, SignatureError>)
    ensures r.Success? <==> name == "new" && |args| == 1 && GetType(args[0]) == Success(NumberType)
    ensures r.Success? ==> r.value == CallResult(Func("new", ThreadPoolSignature, BuiltInFunc(ThreadPoolNew)), args)
    ensures name != "new" ==> r == Failure(FunctionNotFound(name))
  {
    if name == "new" then GenerateFunc(name, args, ThreadPoolSignature, ThreadPoolNew)
    else Failure(FunctionNotFound(name))
  }
}
