/** The parse cursor (common/parsing/context.rs): an index into the lexed
    symbols, lookahead that skips whitespace symbols, moving forward and
    back, line numbers and snippets for messages, and the table from
    declared variable names to their static types. */
module Context {
  import opened Wrappers
  import opened Symbols
  import opened Values
  import opened Seqs

  /** What the cursor reports instead of a symbol. */
  datatype CursorError = Eof | UnknownVariable(name: string)

  /** The non-whitespace symbols of `s`, in order. */
  function NonWs(s: seq<Symbol>): (r: seq<Symbol>)
    ensures |r| <= |s|
  {
    if s == [] then []
    else NonWs(s[..|s| - 1]) + (if IsWhitespace(s[|s| - 1]) then [] else [s[|s| - 1]])
  }

  /** Filtering distributes over concatenation. */
  lemma {:induction false} NonWsAppend(a: seq<Symbol>, b: seq<Symbol>)
    ensures NonWs(a + b) == NonWs(a) + NonWs(b)
    decreases |b|
  {
    if b != [] {
      var b' := b[..|b| - 1];
      assert (a + b)[..|a + b| - 1] == a + b';
      NonWsAppend(a, b');
    } else {
      assert a + b == a;
    }
  }

  /** Dropping the first of the remaining symbols drops it from the filter
      exactly when it is not whitespace. */
  lemma NonWsFromStep(syms: seq<Symbol>, i: nat)
    requires i < |syms|
    ensures NonWs(syms[i..]) == (if IsWhitespace(syms[i]) then [] else [syms[i]]) + NonWs(syms[i + 1..])
  {
    assert syms[i..] == [syms[i]] + syms[i + 1..];
    NonWsAppend([syms[i]], syms[i + 1..]);
    assert NonWs([syms[i]]) == NonWs([]) + (if IsWhitespace(syms[i]) then [] else [syms[i]]);
  }

  /** Extending a slice by one symbol extends its filter by that symbol
      unless it is whitespace. */
  lemma NonWsSnoc(syms: seq<Symbol>, i: nat, pos: nat)
    requires i <= pos < |syms|
    ensures NonWs(syms[i..pos + 1]) ==
            NonWs(syms[i..pos]) + (if IsWhitespace(syms[pos]) then [] else [syms[pos]])
  {
    assert syms[i..pos + 1][..pos - i] == syms[i..pos];
  }

  /** `get_symbols_by_type(Whitespace)`, as the cursor uses it: a list
      holding exactly the whitespace symbols. */
  method WhitespaceSymbols() returns (l: seq<Symbol>)
    ensures forall sym :: sym in l <==> IsWhitespace(sym)
  {
    l := GetSymbolsByType(Whitespace);
    forall sym
      ensures sym in l <==> IsWhitespace(sym)
    {
      CategoryListMembers(Whitespace, sym);
      WhitespaceMembers(sym);
    }
  }

  /** `sort_by_longest(get_symbols_by_type(Newline))`: a list holding
      exactly the newline symbols. */
  method NewlineSymbols() returns (l: seq<Symbol>)
    ensures forall sym :: sym in l <==> IsNewline(sym)
  {
    var cat := GetSymbolsByType(Newline);
    l := SortByLongest(cat);
    LongestFirstPermutes(cat);
    forall sym
      ensures sym in l <==> IsNewline(sym)
    {
      CategoryListMembers(Newline, sym);
      NewlineMembers(sym);
      assert sym in l <==> sym in multiset(l);
    }
  }

  /** Every symbol of `s` wrapped as `Ok`. */
  function Oks(s: seq<Symbol>): (r: seq<Result<Symbol, CursorError>>)
    ensures |r| == |s|
    ensures forall k :: 0 <= k < |s| ==> r[k] == Success(s[k])
  {
    seq(|s|, k requires 0 <= k < |s| => Success(s[k]))
  }

  /** What `get_safe_multiple(n)` returns with the cursor at `i`: the next
      `n` non-whitespace symbols as `Ok`, or, when fewer are left, all of
      them followed by a single EOF error. */
  function SafeMultiple(syms: seq<Symbol>, i: nat, n: nat): (r: seq<Result<Symbol, CursorError>>)
    requires i <= |syms|
    ensures |NonWs(syms[i..])| >= n ==> |r| == n
    ensures |NonWs(syms[i..])| < n ==> |r| == |NonWs(syms[i..])| + 1 && r[|r| - 1] == Failure(Eof)
    ensures forall k :: 0 <= k < |r| && k < |NonWs(syms[i..])| ==> r[k] == Success(NonWs(syms[i..])[k])
  {
    var ns := NonWs(syms[i..]);
    if |ns| >= n then Oks(ns[..n]) else Oks(ns) + [Failure(Eof)]
  }

  /** The position of the first non-whitespace symbol at or after `i`, or
      the end. */
  function NextNonWs(syms: seq<Symbol>, i: nat): (r: nat)
    requires i <= |syms|
    ensures i <= r <= |syms|
    ensures r < |syms| ==> !IsWhitespace(syms[r])
    ensures forall k :: i <= k < r ==> IsWhitespace(syms[k])
    decreases |syms| - i
  {
    if i == |syms| then i
    else if IsWhitespace(syms[i]) then NextNonWs(syms, i + 1)
    else i
  }

  /** What `get_safe`/`get` see with the cursor at `i`. */
  function Peek(syms: seq<Symbol>, i: nat): (r: Result<Symbol, CursorError>)
    requires i <= |syms|
    ensures r.Success? ==> i < |syms| && !IsWhitespace(r.value)
  {
    var j := NextNonWs(syms, i);
    if j < |syms| then Success(syms[j]) else Failure(Eof)
  }

  /** `get_safe` is the first element of `get_safe_multiple(1)`: the first
      non-whitespace symbol at or after the cursor, or EOF. */
  lemma {:induction false} SafeOneIsPeek(syms: seq<Symbol>, i: nat)
    requires i <= |syms|
    ensures SafeMultiple(syms, i, 1) == [Peek(syms, i)]
    decreases |syms| - i
  {
    if i < |syms| {
      NonWsFromStep(syms, i);
      if IsWhitespace(syms[i]) {
        SafeOneIsPeek(syms, i + 1);
      }
    }
  }

  /** The position reached by `increment` from `p`: one step, then one
      more when that lands on a whitespace symbol. */
  function Inc(syms: seq<Symbol>, p: nat): nat
    requires p < |syms|
  {
    if p + 1 < |syms| && IsWhitespace(syms[p + 1]) then p + 2 else p + 1
  }

  /** `increment` moves forward by one or two, skips nothing but
      whitespace, and skips at most one whitespace symbol: two whitespace
      symbols in a row leave the cursor on the second. */
  lemma IncSkipsAtMostOne(syms: seq<Symbol>, p: nat)
    requires p < |syms|
    ensures p < Inc(syms, p) <= |syms|
    ensures forall k :: p < k < Inc(syms, p) ==> IsWhitespace(syms[k])
    ensures Inc(syms, p) < |syms| && IsWhitespace(syms[Inc(syms, p)]) ==>
              p + 2 < |syms| && IsWhitespace(syms[p + 1]) && IsWhitespace(syms[p + 2])
  {
  }

  /** Where `back_to_linestart` stops walking back from `i`: the closest
      `NewLine` or `WindowsNewLine` at or before `i`, else 0. A lone
      `LineReturn` does not stop it. */
  function LineStart(syms: seq<Symbol>, i: nat): (r: nat)
    requires i < |syms|
    ensures r <= i
    decreases i
  {
    if i == 0 then 0
    else if syms[i] == NewLine || syms[i] == WindowsNewLine then i
    else LineStart(syms, i - 1)
  }

  /** `LineStart` is 0 or a line break, and no `NewLine`/`WindowsNewLine`
      lies between it and `i`. */
  lemma {:induction false} LineStartIsLastBreak(syms: seq<Symbol>, i: nat)
    requires i < |syms|
    ensures LineStart(syms, i) == 0 || syms[LineStart(syms, i)] in {NewLine, WindowsNewLine}
    ensures forall k :: LineStart(syms, i) < k <= i ==> syms[k] != NewLine && syms[k] != WindowsNewLine
    decreases i
  {
    if i > 0 && syms[i] != NewLine && syms[i] != WindowsNewLine {
      LineStartIsLastBreak(syms, i - 1);
    }
  }

  /** The number of Newline-category symbols in `s`. */
  function NewlinesBefore(s: seq<Symbol>): (r: nat)
    ensures r <= |s|
  {
    if s == [] then 0
    else NewlinesBefore(s[..|s| - 1]) + (if IsNewline(s[|s| - 1]) then 1 else 0)
  }

  /** Wrapping distributes over appending one symbol. */
  lemma OksSnoc(s: seq<Symbol>, x: Symbol)
    ensures Oks(s + [x]) == Oks(s) + [Success(x)]
  {
  }

  /** One symbol more: a whitespace symbol adds nothing to the `Ok`
      results, any other symbol adds itself. */
  lemma SafeStep(syms: seq<Symbol>, i: nat, pos: nat, gotten: seq<Result<Symbol, CursorError>>)
    requires i <= pos < |syms| && gotten == Oks(NonWs(syms[i..pos]))
    ensures IsWhitespace(syms[pos]) ==> gotten == Oks(NonWs(syms[i..pos + 1]))
    ensures !IsWhitespace(syms[pos]) ==> gotten + [Success(syms[pos])] == Oks(NonWs(syms[i..pos + 1]))
  {
    NonWsSnoc(syms, i, pos);
    OksSnoc(NonWs(syms[i..pos]), syms[pos]);
  }

  /** The texts of `s` concatenated. */
  function Texts(s: seq<Symbol>): string {
    if s == [] then "" else Texts(s[..|s| - 1]) + Text(s[|s| - 1])
  }

  lemma TextsSnoc(s: seq<Symbol>, k: nat)
    requires k < |s|
    ensures Texts(s[..k + 1]) == Texts(s[..k]) + Text(s[k])
  {
    assert s[..k + 1][..k] == s[..k];
  }

  /** `Context`: the symbols being parsed, the cursor, and the variable
      table. */
  class Context {
    const rawCode: string
    const symbols: seq<Symbol>
    var index: nat
    var vartable: map<string, ValueType>

    /** `Context::new`: an empty variable table. */
    constructor (rawCode: string, symbols: seq<Symbol>, index: nat)
      ensures this.rawCode == rawCode && this.symbols == symbols
      ensures this.index == index && vartable == map[]
    {
      this.rawCode := rawCode;
      this.symbols := symbols;
      this.index := index;
      vartable := map[];
    }

    /** `get_vartype`: the recorded type of `name`; an unknown name is an
        error (a panic in Rust). */
    function GetVartype(name: string): (r: Result<ValueType, CursorError>)
      reads this
      ensures r.Success? <==> name in vartable
      ensures r.Success? ==> r.value == vartable[name]
      ensures r.Failure? ==> r.error == UnknownVariable(name)
    {
      if name in vartable then Success(vartable[name]) else Failure(UnknownVariable(name))
    }

    /** `put_var`: records, or overwrites, the type of `name`. */
    method PutVar(name: string, typ: ValueType)
      modifies this
      ensures vartable == old(vartable)[name := typ]
      ensures index == old(index)
      ensures GetVartype(name) == Success(typ)
    {
      vartable := vartable[name := typ];
    }

    /** `get_varnames`: every declared name once, in an unspecified order. */
    method GetVarnames() returns (v: seq<string>)
      ensures forall k :: k in v <==> k in vartable
      ensures forall a, b :: 0 <= a < b < |v| ==> v[a] != v[b]
    {
      v := [];
      var rest := vartable.Keys;
      while rest != {}
        invariant rest <= vartable.Keys
        invariant forall k :: k in vartable ==> k in rest || k in v
        invariant forall k :: k in v ==> k in vartable && k !in rest
        invariant forall a, b :: 0 <= a < b < |v| ==> v[a] != v[b]
        decreases rest
      {
        var key :| key in rest;
        v := v + [key];
        rest := rest - {key};
      }
    }

    /** `get_raw`: the symbol under the cursor, whitespace included; EOF
        past the end (a panic in Rust). */
    function GetRaw(): (r: Result<Symbol, CursorError>)
      reads this
      ensures r.Success? <==> index < |symbols|
      ensures r.Success? ==> r.value == symbols[index]
    {
      if index >= |symbols| then Failure(Eof) else Success(symbols[index])
    }

    /** `get_index`. */
    function GetIndex(): nat
      reads this
    {
      index
    }

    /** `jump`: moves the cursor to `idx`, after which `get_index` is
        `idx`. */
    method Jump(idx: nat)
      modifies this
      ensures index == idx && GetIndex() == idx
      ensures vartable == old(vartable)
    {
      index := idx;
    }

    /** `has_next` (and `has_next_nonwhitespace`, which is the same test). */
    function HasNext(): (b: bool)
      reads this
      ensures b <==> GetRaw().Success?
    {
      index + 1 <= |symbols|
    }

    /** `get_safe_multiple(n)`: never moves the cursor; see `SafeMultiple`. */
    method GetSafeMultiple(n: nat) returns (gotten: seq<Result<Symbol, CursorError>>)
      requires index <= |symbols|
      ensures gotten == SafeMultiple(symbols, index, n)
    {
      var gottenCount := 0;
      var whitespaceCount := 0;
      var whitespSyms := WhitespaceSymbols();
      gotten := [];
      while gottenCount < n
        invariant gottenCount <= n
        invariant index + whitespaceCount + gottenCount <= |symbols|
        invariant gotten == Oks(NonWs(symbols[index..index + whitespaceCount + gottenCount]))
        invariant |gotten| == gottenCount
        decreases |symbols| - (index + whitespaceCount + gottenCount)
      {
        if index + whitespaceCount + gottenCount >= |symbols| {
          assert symbols[index..index + whitespaceCount + gottenCount] == symbols[index..];
          gotten := gotten + [Failure(Eof)];
          return;
        }
        while index + whitespaceCount + gottenCount < |symbols| && gottenCount < n
          invariant gottenCount <= n
          invariant index + whitespaceCount + gottenCount <= |symbols|
          invariant gotten == Oks(NonWs(symbols[index..index + whitespaceCount + gottenCount]))
          invariant |gotten| == gottenCount
          decreases |symbols| - (index + whitespaceCount + gottenCount)
        {
          var pos := index + whitespaceCount + gottenCount;
          var curSym := symbols[pos];
          SafeStep(symbols, index, pos, gotten);
          if curSym in whitespSyms {
            whitespaceCount := whitespaceCount + 1;
          } else {
            gotten := gotten + [Success(curSym)];
            gottenCount := gottenCount + 1;
          }
        }
      }
      GotAll(index + whitespaceCount + gottenCount, n);
    }

    /** Once `n` symbols were collected up to `pos`, they are the first `n`
        of all that remain. */
    lemma GotAll(pos: nat, n: nat)
      requires index <= pos <= |symbols|
      requires |NonWs(symbols[index..pos])| == n
      ensures Oks(NonWs(symbols[index..pos])) == SafeMultiple(symbols, index, n)
    {
      assert symbols[index..] == symbols[index..pos] + symbols[pos..];
      NonWsAppend(symbols[index..pos], symbols[pos..]);
      assert NonWs(symbols[index..])[..n] == NonWs(symbols[index..pos]);
    }

    /** `get_safe`: the first non-whitespace symbol at or after the cursor,
        or EOF; the cursor does not move. */
    method GetSafe() returns (r: Result<Symbol, CursorError>)
      requires index <= |symbols|
      ensures r == Peek(symbols, index)
    {
      var all := GetSafeMultiple(1);
      SafeOneIsPeek(symbols, index);
      r := all[0];
    }

    /** `get_multiple(n)`: the next `n` non-whitespace symbols, failing
        exactly where `get_safe_multiple` reports an error. */
    method GetMultiple(n: nat) returns (r: Result<seq<Symbol>, CursorError>)
      requires index <= |symbols|
      ensures r.Success? <==> |NonWs(symbols[index..])| >= n
      ensures r.Success? ==> r.value == NonWs(symbols[index..])[..n]
      ensures r.Failure? ==> r.error == Eof
    {
      var all := GetSafeMultiple(n);
      var v := [];
      var i := 0;
      while i < |all|
        invariant 0 <= i <= |all|
        invariant i <= |NonWs(symbols[index..])| && v == NonWs(symbols[index..])[..i]
      {
        if all[i].Failure? {
          return Failure(all[i].error);
        }
        v := v + [all[i].value];
        i := i + 1;
      }
      r := Success(v);
    }

    /** `get`: `get_safe` with EOF as a fatal error. */
    method Get() returns (r: Result<Symbol, CursorError>)
      requires index <= |symbols|
      ensures r == Peek(symbols, index)
      ensures r.Success? ==> index < |symbols| && !IsWhitespace(r.value)
    {
      var m := GetMultiple(1);
      SafeOneIsPeek(symbols, index);
      assert SafeMultiple(symbols, index, 1)[0] == Peek(symbols, index);
      if m.Failure? {
        r := Failure(m.error);
      } else {
        r := Success(m.value[0]);
      }
    }

    /** `increment`: see `Inc`. The cursor must not already be past the
        last symbol (Rust indexes out of bounds there). */
    method Increment()
      requires index < |symbols|
      modifies this
      ensures index == Inc(symbols, old(index))
      ensures vartable == old(vartable)
    {
      index := index + 1;
      var whitespSyms := WhitespaceSymbols();
      if index == |symbols| {
        return;
      }
      if symbols[index] in whitespSyms {
        index := index + 1;
      }
    }

    /** `back_to_linestart`: walks back to the line's start (`LineStart`)
        and then increments past it. */
    method BackToLinestart()
      requires index < |symbols|
      modifies this
      ensures index == Inc(symbols, LineStart(symbols, old(index)))
      ensures vartable == old(vartable)
    {
      while index > 0
        invariant index <= old(index) && vartable == old(vartable)
        invariant LineStart(symbols, index) == LineStart(symbols, old(index))
        decreases index
      {
        var curSym := symbols[index];
        if curSym == NewLine || curSym == WindowsNewLine {
          break;
        }
        index := index - 1;
      }
      Increment();
    }

    /** `get_line_no`: 1 plus the Newline-category symbols strictly before
        the cursor, found by comparing against the longest-first list of
        that category. */
    method GetLineNo() returns (line: nat)
      requires index <= |symbols|
      ensures line == 1 + NewlinesBefore(symbols[..index])
    {
      var lineCount := 0;
      var newlineSyms := NewlineSymbols();
      for idx := 0 to index
        invariant lineCount == NewlinesBefore(symbols[..idx])
      {
        var sym := symbols[idx];
        assert symbols[..idx + 1][..idx] == symbols[..idx];
        var symIdx := 0;
        var hit := false;
        while symIdx < |newlineSyms| && !hit
          invariant 0 <= symIdx <= |newlineSyms|
          invariant hit ==> sym in newlineSyms
          invariant !hit ==> sym !in newlineSyms[..symIdx]
          invariant lineCount == NewlinesBefore(symbols[..idx]) + (if hit then 1 else 0)
          decreases |newlineSyms| - symIdx, if hit then 0 else 1
        {
          if sym == newlineSyms[symIdx] {
            lineCount := lineCount + 1;
            hit := true;
          } else {
            assert newlineSyms[..symIdx + 1] == newlineSyms[..symIdx] + [newlineSyms[symIdx]];
            symIdx := symIdx + 1;
          }
        }
        assert !hit ==> newlineSyms[..symIdx] == newlineSyms;
      }
      line := lineCount + 1;
    }

    /** `get_snippet`: the texts of the (up to) five symbols from the
        cursor on, concatenated. */
    method GetSnippet() returns (st: string)
      requires index <= |symbols|
      ensures st == Texts(symbols[index..index + (if |symbols| - index < 5 then |symbols| - index else 5)])
    {
      var count := if |symbols| - index < 5 then |symbols| - index else 5;
      var symbs := [];
      for idx := 0 to count
        invariant symbs == symbols[index..index + idx]
      {
        SliceSnoc(symbols, index, index + idx);
        symbs := symbs + [symbols[index + idx]];
      }
      st := "";
      for k := 0 to |symbs|
        invariant st == Texts(symbs[..k])
      {
        TextsSnoc(symbs, k);
        st := st + Text(symbs[k]);
      }
      assert symbs[..|symbs|] == symbs;
      assert st == Texts(symbs) && symbs == symbols[index..index + count];
    }
  }
}
