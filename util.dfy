/** Parsing helpers (common/parsing/util.rs): bounded string slicing and
    the cursor loops that skip ahead to a symbol or a symbol category. */
module Util {
  import opened Wrappers
  import opened Symbols
  import opened Context

  /** The value Rust's `usize::MAX` stands for, used as "to the end". */
  const UsizeMax: nat := 0xFFFF_FFFF_FFFF_FFFF

  function Min(a: int, b: int): int { if a <= b then a else b }

  function Max(a: int, b: int): int { if a <= b then b else a }

  /** `slice_str`: the part of `s` from `start` to `end`, where an `end` of
      `usize::MAX` or past the string means "to the end" and a `start` past the
      string gives the empty string. Rust refuses (panics on) a `start` past
      the string together with `usize::MAX`, and an `end` before `start` when
      both are inside the string. */
  function SliceStr(s: string, start: nat, end: nat): (r: string)
    requires |s| < UsizeMax
    requires end == UsizeMax ==> start <= |s|
    requires start <= |s| && end <= |s| ==> start <= end
    ensures var lo := Min(start, |s|); r == s[lo..Max(lo, Min(end, |s|))]
    ensures |r| <= |s| - Min(start, |s|)
  {
    if end == UsizeMax then s[start..]
    else if start > |s| then ""
    else if end > |s| then s[start..]
    else s[start..end]
  }

  /** Slicing is compatible with splitting: two adjacent slices concatenate
      to the slice spanning both. */
  lemma SliceStrSplits(s: string, a: nat, b: nat, c: nat)
    requires |s| < UsizeMax && a <= b <= |s| && b <= c
    ensures SliceStr(s, a, b) + SliceStr(s, b, c) == SliceStr(s, a, c)
  {
  }

  /** Where `consume_until_symboltype` leaves the cursor when started at
      `p`: it tests the raw symbol at each position the cursor lands on
      (including whitespace) and stops one `increment` past the first one
      of category `typ`; running out of symbols is an EOF error. */
  function ConsumeTypeFrom(syms: seq<Symbol>, p: nat, typ: SymbolType): (r: Result<nat, CursorError>)
    ensures r.Success? ==> p < r.value <= |syms|
    ensures r.Failure? ==> r.error == Eof
    decreases |syms| - p
  {
    if p >= |syms| then Failure(Eof)
    else if InCategory(syms[p], typ) then Success(Inc(syms, p))
    else ConsumeTypeFrom(syms, Inc(syms, p), typ)
  }

  /** A successful scan stops one `increment` past a member of the
      category; a failed one saw none, except whitespace members that an
      `increment` stepped over. */
  lemma {:induction false} ConsumeTypeFinds(syms: seq<Symbol>, p: nat, typ: SymbolType)
    ensures var r := ConsumeTypeFrom(syms, p, typ);
      r.Success? ==> exists m :: p <= m < r.value && InCategory(syms[m], typ) && r.value == Inc(syms, m)
    ensures ConsumeTypeFrom(syms, p, typ).Failure? ==>
              forall k :: p <= k < |syms| && InCategory(syms[k], typ) ==> p < k && IsWhitespace(syms[k])
    decreases |syms| - p
  {
    if p < |syms| && !InCategory(syms[p], typ) {
      IncSkipsAtMostOne(syms, p);
      ConsumeTypeFinds(syms, Inc(syms, p), typ);
    }
  }

  /** The scan for a line break misses a `NewLine` that directly follows a
      non-whitespace symbol, because `increment` steps over it: in
      `c NL x NL` the scan from `c` never looks at either `NewLine`. So a
      `//` comment whose last word touches the line end swallows the next
      line as well. */
  lemma ConsumeTypeSkipsNewline()
    ensures ConsumeTypeFrom([LiteralSymb("c"), NewLine, LiteralSymb("x"), NewLine], 0, Newline) == Failure(Eof)
  {
    var syms := [LiteralSymb("c"), NewLine, LiteralSymb("x"), NewLine];
    NewlineMembers(syms[0]);
    NewlineMembers(syms[2]);
    assert Inc(syms, 0) == 2;
    assert Inc(syms, 2) == 4;
  }

  /** `consume_until_symboltype`: see `ConsumeTypeFrom`. */
  method ConsumeUntilSymbolType(ctx: Context, typ: SymbolType) returns (r: Result<(), CursorError>)
    modifies ctx
    ensures var spec := ConsumeTypeFrom(ctx.symbols, old(ctx.index), typ);
      r.Success? == spec.Success? && (spec.Success? ==> ctx.index == spec.value)
    ensures ctx.vartable == old(ctx.vartable)
  {
    var syms := GetSymbolsByType(typ);
    if !ctx.HasNext() {
      return Failure(Eof);
    }
    while true
      invariant ctx.index < |ctx.symbols|
      invariant ConsumeTypeFrom(ctx.symbols, ctx.index, typ) == ConsumeTypeFrom(ctx.symbols, old(ctx.index), typ)
      invariant ctx.vartable == old(ctx.vartable)
      decreases |ctx.symbols| - ctx.index
    {
      CategoryListMembers(typ, ctx.symbols[ctx.index]);
      if ctx.symbols[ctx.index] in syms {
        ctx.Increment();
        return Success(());
      }
      // The `has_next` test that follows in the source always passes here,
      // since `get_raw` has just read the symbol under the cursor.
      ctx.Increment();
      if ctx.index >= |ctx.symbols| {
        // `get_raw` at the end of the symbols
        return Failure(Eof);
      }
    }
  }

  /** Where `consume_until_symbol` leaves the cursor when started at `p`:
      it compares `sym` with the next non-whitespace symbol (`get`) and
      increments from the current position in either case, stopping after
      the increment that follows a match; EOF is an error. */
  function ConsumeSymFrom(syms: seq<Symbol>, p: nat, sym: Symbol): (r: Result<nat, CursorError>)
    requires p <= |syms|
    ensures r.Success? ==> p < r.value <= |syms|
    ensures r.Failure? ==> r.error == Eof
    decreases |syms| - p
  {
    var cur := Peek(syms, p);
    if cur.Failure? then Failure(Eof)
    else if cur.value == sym then Success(Inc(syms, p))
    else ConsumeSymFrom(syms, Inc(syms, p), sym)
  }

  /** Whitespace symbols contribute nothing to the non-whitespace view. */
  lemma {:induction false} NonWsDropWs(syms: seq<Symbol>, p: nat, q: nat)
    requires p <= q <= |syms|
    requires forall k :: p <= k < q ==> IsWhitespace(syms[k])
    ensures NonWs(syms[p..]) == NonWs(syms[q..])
    decreases q - p
  {
    if p < q {
      NonWsFromStep(syms, p);
      NonWsDropWs(syms, p + 1, q);
    }
  }

  /** `consume_until_symbol` succeeds exactly when `sym` is a
      non-whitespace symbol that occurs at or after the cursor: every
      non-whitespace symbol is looked at in turn. A whitespace `sym` is
      never found. */
  lemma {:induction false} ConsumeSymFinds(syms: seq<Symbol>, p: nat, sym: Symbol)
    requires p <= |syms|
    ensures ConsumeSymFrom(syms, p, sym).Success? <==> !IsWhitespace(sym) && sym in NonWs(syms[p..])
    decreases |syms| - p
  {
    var m := NextNonWs(syms, p);
    var view := NonWs(syms[p..]);
    NonWsDropWs(syms, p, m);
    if m == |syms| {
      assert syms[m..] == [];
      assert view == [];
    } else {
      NonWsFromStep(syms, m);
      assert syms[m] in view;
      if syms[m] != sym {
        var q := Inc(syms, p);
        IncNonWs(syms, p);
        assert sym in view <==> sym in NonWs(syms[q..]);
        assert ConsumeSymFrom(syms, p, sym) == ConsumeSymFrom(syms, q, sym);
        ConsumeSymFinds(syms, q, sym);
      }
    }
  }

  /** An increment from `p` passes over the next non-whitespace symbol
      only when the cursor is on it, and over nothing else but
      whitespace. */
  lemma IncNonWs(syms: seq<Symbol>, p: nat)
    requires p < |syms| && NextNonWs(syms, p) < |syms|
    ensures NonWs(syms[p..]) == (if p == NextNonWs(syms, p) then [syms[p]] else []) + NonWs(syms[Inc(syms, p)..])
  {
    var m, q := NextNonWs(syms, p), Inc(syms, p);
    IncSkipsAtMostOne(syms, p);
    if p == m {
      NonWsFromStep(syms, p);
      if q == p + 2 {
        NonWsFromStep(syms, p + 1);
        assert [] + NonWs(syms[q..]) == NonWs(syms[q..]);
      }
    } else {
      NonWsDropWs(syms, p, q);
      assert [] + NonWs(syms[q..]) == NonWs(syms[q..]);
    }
  }

  /** The cursor can stop ON the symbol it was looking for: with two
      whitespace symbols before a `MultiCommentEnd`, the increment that
      follows the match starts before the match, skips one whitespace
      symbol and lands on the `MultiCommentEnd` itself. */
  lemma ConsumeSymCanStopOnMatch()
    ensures ConsumeSymFrom([Space, Space, MultiCommentEnd, NewLine], 0, MultiCommentEnd) == Success(2)
  {
    var syms := [Space, Space, MultiCommentEnd, NewLine];
    assert NextNonWs(syms, 2) == 2;
    assert NextNonWs(syms, 0) == 2;
  }

  /** `consume_until_symbol`: see `ConsumeSymFrom`. The cursor starts at or
      before the end of the symbols. */
  method ConsumeUntilSymbol(ctx: Context, sym: Symbol) returns (r: Result<(), CursorError>)
    requires ctx.index <= |ctx.symbols|
    modifies ctx
    ensures var spec := ConsumeSymFrom(ctx.symbols, old(ctx.index), sym);
      r.Success? == spec.Success? && (spec.Success? ==> ctx.index == spec.value)
    ensures ctx.vartable == old(ctx.vartable)
  {
    while true
      invariant ctx.index <= |ctx.symbols|
      invariant ConsumeSymFrom(ctx.symbols, ctx.index, sym) == ConsumeSymFrom(ctx.symbols, old(ctx.index), sym)
      invariant ctx.vartable == old(ctx.vartable)
      decreases |ctx.symbols| - ctx.index
    {
      var cur := ctx.Get();
      if cur.Failure? {
        return Failure(cur.error);
      }
      ctx.Increment();
      if cur.value == sym {
        return Success(());
      }
    }
  }
}
