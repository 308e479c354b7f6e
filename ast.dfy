/** `EightAST` of `ast.rs`: the parsed statements and `optimize_ast`,
    which gathers every statement's relation entries and then hands all
    the statements back as one batch. */
module Ast {
  import opened Wrappers
  import opened Values
  import opened Relations
  import opened Expressions

  /** The relation entries of each statement, in order (the `orig_exprs`
      of `optimize_ast`); the first statement whose entries cannot be
      computed decides the fault. */
  function ReferencesOf(xs: seq<Expression>): (r: Result<seq<seq<RelationEntry>>, Fault>)
    ensures r.Success? ==> |r.value| == |xs|
    ensures r.Success? ==> forall k :: 0 <= k < |xs| ==> ExprReferences(xs[k]) == Success(r.value[k])
  {
    if xs == [] then Success([])
    else
      match ReferencesOf(xs[..|xs| - 1])
      case Failure(f) => Failure(f)
      case Success(a) =>
        match ExprReferences(xs[|xs| - 1])
        case Failure(f) => Failure(f)
        case Success(b) => Success(a + [b])
  }

  /** The entries are computed exactly when every statement has them. */
  lemma {:induction false} ReferencesOfSucceeds(xs: seq<Expression>)
    ensures ReferencesOf(xs).Success? <==> forall k :: 0 <= k < |xs| ==> ExprReferences(xs[k]).Success?
  {
    if xs != [] {
      var init := xs[..|xs| - 1];
      ReferencesOfSucceeds(init);
      if forall k :: 0 <= k < |xs| ==> ExprReferences(xs[k]).Success? {
        assert forall k :: 0 <= k < |init| ==> ExprReferences(init[k]).Success? by {
          forall k | 0 <= k < |init|
            ensures ExprReferences(init[k]).Success?
          {
            assert init[k] == xs[k];
          }
        }
        assert ExprReferences(xs[|xs| - 1]).Success?;
      }
    }
  }

  /** A statement whose entries cannot be computed decides the fault:
      nothing after it is looked at. */
  lemma {:induction false} FailingPrefixDecides(xs: seq<Expression>, j: nat)
    requires j <= |xs| && ReferencesOf(xs[..j]).Failure?
    ensures ReferencesOf(xs) == ReferencesOf(xs[..j])
    decreases |xs|
  {
    if j < |xs| {
      var init := xs[..|xs| - 1];
      assert init[..j] == xs[..j];
      FailingPrefixDecides(init, j);
    } else {
      assert xs[..j] == xs;
    }
  }

  /** A declaration whose value is a list has no relation entries (they
      are not written for lists), so no program that declares a list gets
      through `optimize_ast`. */
  lemma ListDeclarationFaults(xs: seq<Expression>, k: nat)
    requires k < |xs| && xs[k].VariableTokenExpr? && xs[k].value.ListExpr?
    ensures ReferencesOf(xs).Failure?
  {
    assert ExprReferences(xs[k]).Failure?;
    ReferencesOfSucceeds(xs);
  }

  /** Prepending in the reversal of a sequence is appending to the
      sequence. */
  lemma {:induction false} ReverseSnoc<T>(s: seq<T>, x: T)
    ensures Reverse(s + [x]) == [x] + Reverse(s)
    decreases |s|
  {
    if s == [] {
      assert Reverse([x]) == Reverse([x][1..]) + [x];
      assert [x][1..] == [];
    } else {
      var t := s + [x];
      assert t[0] == s[0] && t[1..] == s[1..] + [x];
      ReverseSnoc(s[1..], x);
    }
  }

  /** `EightAST`: the statements of a parsed program. */
  class EightAst {
    var exprs: seq<Expression>

    /** `EightAST::new`. */
    constructor(v: seq<Expression>)
      ensures exprs == v
    {
      exprs := v;
    }

    /** The loop of `optimize_ast` that collects `orig_exprs`: the
        entries of each statement in turn, stopping at the first fault. */
    method References() returns (r: Result<seq<seq<RelationEntry>>, Fault>)
      ensures r == ReferencesOf(exprs)
    {
      var orig: seq<seq<RelationEntry>> := [];
      for i := 0 to |exprs|
        invariant ReferencesOf(exprs[..i]) == Success(orig)
      {
        assert exprs[..i + 1][..i] == exprs[..i];
        var rels := ExprReferences(exprs[i]);
        if rels.Failure? {
          FailingPrefixDecides(exprs, i + 1);
          return Failure(rels.error);
        }
        orig := orig + [rels.value];
      }
      assert exprs[..|exprs|] == exprs;
      r := Success(orig);
    }

    /** The loop of `optimize_ast` that pops every statement: what it
        pops, reversed, is the statements it had, and none are left. */
    method PopAll() returns (vv: seq<Expression>)
      modifies this
      ensures Reverse(vv) == old(exprs) && exprs == []
    {
      vv := [];
      var n := |exprs|;
      for d := 0 to n
        invariant |exprs| == n - d
        invariant exprs + Reverse(vv) == old(exprs)
      {
        var last := exprs[|exprs| - 1];
        var rest := exprs[..|exprs| - 1];
        ReverseSnoc(vv, last);
        assert exprs == rest + [last];
        assert rest + Reverse(vv + [last]) == exprs + Reverse(vv);
        exprs := rest;
        vv := vv + [last];
      }
      assert exprs == [];
    }

    /** `optimize_ast`. It first computes the relation entries of every
        statement, which faults on the first statement that has none; the
        flattened, expanded and first-order views built from them are only
        logged. Then it pops every statement, reverses what it popped and
        returns it as the one batch, leaving the AST empty. */
    method OptimizeAst() returns (r: Result<seq<seq<Expression>>, Fault>)
      modifies this
      ensures r.Failure? <==> ReferencesOf(old(exprs)).Failure?
      ensures r.Failure? ==> r.error == ReferencesOf(old(exprs)).error && exprs == old(exprs)
      ensures r.Success? ==> r.value == [old(exprs)] && exprs == []
    {
      var refs := References();
      if refs.Failure? {
        return Failure(refs.error);
      }
      var vv := PopAll();
      vv := Reverse(vv);
      r := Success([vv]);
    }
  }
}
