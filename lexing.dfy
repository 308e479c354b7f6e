/** The tokenizer (common/tokenizing/lexing.rs): turns source text into
    symbols by longest match against the catalogue, collecting runs of
    unmatched characters into literals and the bodies of double-quoted
    strings into string literals. */
module Lexing {
  import opened Wrappers
  import opened Symbols
  import opened Util

  /** The one way the tokenizer fails: a quote with no closing quote after
      it; `at` is the position just after the opening quote. */
  datatype LexError = UnterminatedString(at: nat)

  /** `check_symbol`: `Some(sym)` exactly when the text of `sym` begins `s`. */
  function CheckSymbol(s: string, sym: Symbol): (r: Option<Symbol>)
    requires |s| < UsizeMax
    ensures r.Some? <==> Text(sym) <= s
    ensures r.Some? ==> r.value == sym
  {
    var sliced := SliceStr(s, 0, |Text(sym)|);
    if sliced == Text(sym) then Some(sym) else None
  }

  /** The symbols of `syms` whose text begins `rest`, in order. */
  function PrefixesOf(syms: seq<Symbol>, rest: string): (r: seq<Symbol>)
    ensures |r| <= |syms|
  {
    if |syms| == 0 then []
    else PrefixesOf(syms[..|syms| - 1], rest)
         + (if Text(syms[|syms| - 1]) <= rest then [syms[|syms| - 1]] else [])
  }

  lemma {:induction false} PrefixesOfMembers(syms: seq<Symbol>, rest: string, x: Symbol)
    ensures x in PrefixesOf(syms, rest) <==> x in syms && Text(x) <= rest
  {
    if |syms| > 0 {
      PrefixesOfMembers(syms[..|syms| - 1], rest, x);
      assert syms == syms[..|syms| - 1] + [syms[|syms| - 1]];
    }
  }

  /** `get_possible_symbols`: the symbols of `symbols` whose text starts at
      position `idx` of `s`, in the order of `symbols`. */
  method GetPossibleSymbols(s: string, idx: nat, symbols: seq<Symbol>) returns (possible: seq<Symbol>)
    requires idx <= |s| < UsizeMax
    ensures possible == PrefixesOf(symbols, s[idx..])
  {
    possible := [];
    for k := 0 to |symbols|
      invariant possible == PrefixesOf(symbols[..k], s[idx..])
    {
      assert symbols[..k + 1][..k] == symbols[..k];
      var snip := SliceStr(s, idx, UsizeMax);
      var found := CheckSymbol(snip, symbols[k]);
      if found.Some? {
        possible := possible + [found.value];
      }
    }
    assert symbols[..|symbols|] == symbols;
  }

  /** Every catalogue symbol is a fixed symbol. */
  lemma CatalogueFixed(x: Symbol)
    requires x in All
    ensures x.IsFixed()
  {
    var k :| 0 <= k < |All| && All[k] == x;
    CatalogueAt(k);
  }

  /** Position by position: every catalogue entry is a fixed symbol. */
  lemma CatalogueAt(k: nat)
    requires k < |All|
    ensures All[k].IsFixed()
  {
    if k < 12 {
      assert All[..12] == [Add, Sub, Exponent, Multiply, Divide, Modulus, Equal, EqualityCheck, ClassAccessor, ValueAccessor, Let, Semicolon];
      assert All[k] == All[..12][k];
    } else {
      assert All[12..] == [Comma, ParenOpen, ParenClose, BracketOpen, BracketClose, Quote, NewLine, LineReturn, Space, WindowsNewLine, SingleComment, MultiCommentStart, MultiCommentEnd];
      assert All[k] == All[12..][k - 12];
    }
  }

  /** Every fixed symbol has a non-empty text. */
  lemma FixedTextsNonEmpty(x: Symbol)
    requires x.IsFixed()
    ensures Len(x) == |Text(x)| > 0
  {
    LenIsTextLength(x);
  }

  /** The catalogue symbols that match at position `i` of `s` (see
      `MatchesDef`). The scan is reached through two steps of `MatchScan`, so
      that the verifier expands it only where a proof calls `MatchesDef`. */
  function Matches(s: string, i: nat): seq<Symbol>
    requires i <= |s|
  {
    MatchScan(s, i, i + 2)
  }

  function MatchScan(s: string, i: nat, n: nat): seq<Symbol>
    requires i <= |s| && i <= n
    decreases n
  {
    if n == i then PrefixesOf(All, s[i..]) else MatchScan(s, i, n - 1)
  }

  lemma MatchesDef(s: string, i: nat)
    requires i <= |s|
    ensures Matches(s, i) == PrefixesOf(All, s[i..])
  {
    assert MatchScan(s, i, i + 2) == MatchScan(s, i, i + 1) == MatchScan(s, i, i);
  }

  /** The symbol the tokenizer takes at position `i`: the first longest of
      the matching symbols. */
  function Longest(s: string, i: nat): (sym: Symbol)
    requires i <= |s|
    requires Matches(s, i) != []
    ensures sym.IsFixed() && 0 < Len(sym) && i + Len(sym) <= |s|
  {
    var ms := Matches(s, i);
    var sym := ms[LongestIndex(ms)];
    MatchesDef(s, i);
    PrefixesOfMembers(All, s[i..], sym);
    CatalogueFixed(sym);
    FixedTextsNonEmpty(sym);
    sym
  }

  /** The symbol taken is one of the matches, and its text starts at `i`. */
  lemma LongestMatches(s: string, i: nat)
    requires i <= |s| && Matches(s, i) != []
    ensures Longest(s, i) in Matches(s, i) && Text(Longest(s, i)) <= s[i..]
    ensures Len(Longest(s, i)) == |Text(Longest(s, i))|
  {
    var ms := Matches(s, i);
    var sym := ms[LongestIndex(ms)];
    MatchesDef(s, i);
    PrefixesOfMembers(All, s[i..], sym);
    LenIsTextLength(sym);
  }

  /** Every fixed symbol is in the catalogue. */
  lemma InCatalogue(x: Symbol)
    requires x.IsFixed()
    ensures x in All
  {
  }

  /** Longest match: any fixed symbol whose text starts at `i` is no longer
      than the one taken, and one of the same length is the one taken. */
  lemma LongestIsMaximal(s: string, i: nat, x: Symbol)
    requires i <= |s| && x.IsFixed() && Text(x) <= s[i..]
    ensures Matches(s, i) != []
    ensures Len(x) <= Len(Longest(s, i))
    ensures Len(x) == Len(Longest(s, i)) ==> x == Longest(s, i)
  {
    FixedMatches(s, i, x);
    var ms := Matches(s, i);
    var j :| 0 <= j < |ms| && ms[j] == x;
    assert Len(ms[j]) <= Len(ms[LongestIndex(ms)]);
    LongestMatches(s, i);
    SameTextLength(s, i, x, Longest(s, i));
  }

  /** A fixed symbol whose text starts at `i` is among the matches there. */
  lemma FixedMatches(s: string, i: nat, x: Symbol)
    requires i <= |s| && x.IsFixed() && Text(x) <= s[i..]
    ensures x in Matches(s, i)
  {
    InCatalogue(x);
    MatchesDef(s, i);
    PrefixesOfMembers(All, s[i..], x);
  }

  /** Two fixed symbols of the same length whose texts both start at `i`
      are the same symbol. */
  lemma SameTextLength(s: string, i: nat, x: Symbol, y: Symbol)
    requires i <= |s| && x.IsFixed() && y.IsFixed() && Text(x) <= s[i..] && Text(y) <= s[i..]
    ensures Len(x) == Len(y) ==> x == y
  {
    LenIsTextLength(x);
    LenIsTextLength(y);
    if Len(x) == Len(y) {
      assert Text(x) == s[i..][..Len(x)] == Text(y);
      TextsDistinct(x, y);
    }
  }

  /** `let` is taken wherever its text starts, even inside a longer word. */
  lemma KeywordIsPrefix(s: string, i: nat)
    requires i <= |s| && "let" <= s[i..]
    ensures Matches(s, i) != [] && Longest(s, i) == Let
  {
    LongestIsMaximal(s, i, Let);
    LongestMatches(s, i);
    FixedShape(Longest(s, i));
  }

  // A two-character symbol beats its one-character prefix: the exponent,
  // equality, Windows newline and both comment openers are taken whole.
  lemma TwoCharacterWins(s: string, i: nat, x: Symbol)
    requires i < |s| && x.IsFixed() && Len(x) == 2 && Text(x) <= s[i..] && s[i] != 'l'
    ensures Matches(s, i) != [] && Longest(s, i) == x
  {
    LongestIsMaximal(s, i, x);
    var y := Longest(s, i);
    LongestMatches(s, i);
    FixedShape(y);
    if Len(y) == 3 {
      assert Text(y)[0] == s[i];
    }
  }

  lemma LongestExamples(s: string, i: nat)
    requires i < |s|
    ensures "**" <= s[i..] ==> Matches(s, i) != [] && Longest(s, i) == Exponent
    ensures "==" <= s[i..] ==> Matches(s, i) != [] && Longest(s, i) == EqualityCheck
    ensures "\r\n" <= s[i..] ==> Matches(s, i) != [] && Longest(s, i) == WindowsNewLine
    ensures "//" <= s[i..] ==> Matches(s, i) != [] && Longest(s, i) == SingleComment
    ensures "/*" <= s[i..] ==> Matches(s, i) != [] && Longest(s, i) == MultiCommentStart
  {
    if "**" <= s[i..] { TwoCharacterWins(s, i, Exponent); }
    if "==" <= s[i..] { TwoCharacterWins(s, i, EqualityCheck); }
    if "\r\n" <= s[i..] { TwoCharacterWins(s, i, WindowsNewLine); }
    if "//" <= s[i..] { TwoCharacterWins(s, i, SingleComment); }
    if "/*" <= s[i..] { TwoCharacterWins(s, i, MultiCommentStart); }
  }

  /** A double quote always opens a string. */
  lemma QuoteOpensString(s: string, i: nat)
    requires i < |s| && s[i] == '"'
    ensures Matches(s, i) != [] && Longest(s, i) == Quote
  {
    LongestIsMaximal(s, i, Quote);
    var y := Longest(s, i);
    LongestMatches(s, i);
    FixedShape(y);
    assert Text(y)[0] == s[i];
  }

  /** The first position at or after `p` where some symbol matches, or the
      end of `s`. */
  function NextMatch(s: string, p: nat): (q: nat)
    requires p <= |s|
    ensures p <= q <= |s|
    ensures q < |s| ==> Matches(s, q) != []
    ensures forall k :: p <= k < q ==> Matches(s, k) == []
    decreases |s| - p
  {
    if p == |s| then |s|
    else if Matches(s, p) != [] then p
    else NextMatch(s, p + 1)
  }

  /** The first position at or after `p` holding a double quote, or the end
      of `s`. */
  function ClosingQuote(s: string, p: nat): (q: nat)
    requires p <= |s|
    ensures p <= q <= |s|
    ensures q < |s| ==> s[q] == '"'
    ensures forall k :: p <= k < q ==> s[k] != '"'
    decreases |s| - p
  {
    if p == |s| then |s|
    else if s[p] == '"' then p
    else ClosingQuote(s, p + 1)
  }

  /** Puts `done` in front of a successful result. */
  function Prepend(done: seq<Symbol>, r: Result<seq<Symbol>, LexError>): Result<seq<Symbol>, LexError> {
    match r
    case Success(rest) => Success(done + rest)
    case Failure(e) => Failure(e)
  }

  /** What the tokenizer produces for `s` from position `i` on. */
  function LexFrom(s: string, i: nat): Result<seq<Symbol>, LexError>
    requires i <= |s|
    decreases |s| - i, 1
  {
    if i == |s| then Success([])
    else if Matches(s, i) == [] then LexRun(s, i)
    else LexSymbol(s, i)
  }

  /** At a position where nothing matches: the run of unmatched characters up
      to the next match becomes a literal; a run that reaches the end of the
      input is dropped. */
  function LexRun(s: string, i: nat): Result<seq<Symbol>, LexError>
    requires i < |s|
    decreases |s| - i, 0
  {
    var q := NextMatch(s, i + 1);
    if q == |s| then Success([])
    else Prepend([LiteralSymb(s[i..q])], LexFrom(s, q))
  }

  /** At a position where some symbol matches: the longest one is taken; a
      quote takes everything up to the next quote as a string literal. */
  function LexSymbol(s: string, i: nat): Result<seq<Symbol>, LexError>
    requires i < |s| && Matches(s, i) != []
    decreases |s| - i, 0
  {
    var sym := Longest(s, i);
    var j := i + Len(sym);
    if sym == Quote then
      var q := ClosingQuote(s, j);
      if q == |s| then Failure(UnterminatedString(j))
      else Prepend([StringLiteral(s[j..q])], LexFrom(s, q + 1))
    else Prepend([sym], LexFrom(s, j))
  }

  lemma PrependPrepend(a: seq<Symbol>, b: seq<Symbol>, r: Result<seq<Symbol>, LexError>)
    ensures Prepend(a, Prepend(b, r)) == Prepend(a + b, r)
  {
    if r.Success? {
      assert a + (b + r.value) == (a + b) + r.value;
    }
  }

  lemma PrependNothing(r: Result<seq<Symbol>, LexError>)
    ensures Prepend([], r) == r
  {
    if r.Success? {
      assert [] + r.value == r.value;
    }
  }

  lemma PrependEmpty(done: seq<Symbol>)
    ensures Prepend(done, Success([])) == Success(done)
  {
    assert done + [] == done;
  }

  /** A symbol other than a quote is emitted as it is. */
  lemma LexSymbolStep(s: string, i: nat)
    requires i < |s| && Matches(s, i) != []
    requires Longest(s, i) != Quote
    ensures LexFrom(s, i) == Prepend([Longest(s, i)], LexFrom(s, i + Len(Longest(s, i))))
  {
  }

  /** A quote starts a string literal that runs to the next quote. */
  lemma LexUnterminatedStep(s: string, i: nat)
    requires i < |s| && Matches(s, i) != []
    requires Longest(s, i) == Quote && ClosingQuote(s, i + 1) == |s|
    ensures LexFrom(s, i) == Failure(UnterminatedString(i + 1))
  {
  }

  lemma LexQuoteStep(s: string, i: nat, q: nat, body: string)
    requires i < |s| && Matches(s, i) != []
    requires Longest(s, i) == Quote
    requires q == ClosingQuote(s, i + 1) < |s| && body == s[i + 1..q]
    ensures LexFrom(s, i) == Prepend([StringLiteral(body)], LexFrom(s, q + 1))
  {
    LexFromSymbol(s, i);
    var j := i + Len(Longest(s, i));
    assert j == i + 1;
    assert s[j..q] == body;
    assert LexSymbol(s, i) == Prepend([StringLiteral(s[j..q])], LexFrom(s, q + 1));
  }

  lemma LexFromSymbol(s: string, i: nat)
    requires i < |s| && Matches(s, i) != []
    ensures LexFrom(s, i) == LexSymbol(s, i)
  {
  }

  /** A run of unmatched characters that reaches the end of the input is
      dropped. */
  lemma LexTrailingRun(s: string, i: nat)
    requires i < |s|
    requires forall k :: i <= k < |s| ==> Matches(s, k) == []
    ensures LexFrom(s, i) == Success([])
  {
    assert NextMatch(s, i + 1) == |s|;
  }

  /** A run of unmatched characters followed by a match becomes one literal. */
  lemma LexLiteralStep(s: string, i: nat, q: nat)
    requires i < q < |s|
    requires forall k :: i <= k < q ==> Matches(s, k) == []
    requires Matches(s, q) != []
    ensures LexFrom(s, i) == Prepend([LiteralSymb(s[i..q])], LexFrom(s, q))
  {
    assert NextMatch(s, i + 1) == q;
  }

  /** The inner literal loop of `parse`: scans forward from `idx`, where no
      symbol matches, to the next position where one does; `atEnd` when the
      scan reaches the end of the input. */
  method CollectLiteral(s: string, idx: nat, symbols: seq<Symbol>) returns (collectOffset: nat, atEnd: bool)
    requires idx < |s| < UsizeMax
    requires symbols == All
    requires Matches(s, idx) == []
    ensures idx + collectOffset <= |s|
    ensures forall k :: idx <= k < idx + collectOffset ==> Matches(s, k) == []
    ensures atEnd ==> idx + collectOffset == |s|
    ensures !atEnd ==> idx < idx + collectOffset < |s| && Matches(s, idx + collectOffset) != []
  {
    var done := false;
    atEnd := false;
    collectOffset := 0;
    while !done
      invariant idx + collectOffset <= |s|
      invariant forall k :: idx <= k < idx + collectOffset ==> Matches(s, k) == []
      invariant done && atEnd ==> idx + collectOffset == |s|
      invariant done && !atEnd ==> idx < idx + collectOffset < |s| && Matches(s, idx + collectOffset) != []
      invariant !done ==> !atEnd
      decreases if done then 0 else 1, |s| - idx - collectOffset
    {
      if idx + collectOffset == |s| {
        done := true;
        atEnd := true;
        collectOffset := collectOffset - 1;
      }
      var next := GetPossibleSymbols(s, idx + collectOffset, symbols);
      MatchesDef(s, idx + collectOffset);
      if |next| == 0 {
        collectOffset := collectOffset + 1;
        continue;
      } else {
        done := true;
      }
    }
  }

  /** The quote loop of `parse`: the offset from `idx` of the closing quote. */
  method ScanQuote(s: string, idx: nat) returns (r: Result<nat, LexError>)
    requires idx <= |s| < UsizeMax
    ensures r.Success? <==> ClosingQuote(s, idx) < |s|
    ensures r.Success? ==> r.value == ClosingQuote(s, idx) - idx
    ensures r.Failure? ==> r.error == UnterminatedString(idx)
  {
    var quoteOffset := 0;
    while true
      invariant idx + quoteOffset <= |s|
      invariant forall k :: idx <= k < idx + quoteOffset ==> s[k] != '"'
      decreases |s| - idx - quoteOffset
    {
      if idx + quoteOffset >= |s| {
        return Failure(UnterminatedString(idx));
      }
      var symStr := SliceStr(s, idx + quoteOffset, UsizeMax);
      assert Text(Quote) <= symStr <==> s[idx + quoteOffset] == '"';
      if CheckSymbol(symStr, Quote).Some? {
        break;
      }
      quoteOffset := quoteOffset + 1;
    }
    r := Success(quoteOffset);
  }

  /** The loop invariant of `parse`: the symbols pushed so far followed by
      what the rest of the input lexes to make up the whole result. */
  ghost predicate LexedUpTo(s: string, parsed: seq<Symbol>, idx: nat)
    requires idx <= |s|
  {
    LexFrom(s, 0) == Prepend(parsed, LexFrom(s, idx))
  }

  lemma AdvanceLiteral(s: string, parsed: seq<Symbol>, idx: nat, q: nat, lit: string)
    requires idx < q < |s| && LexedUpTo(s, parsed, idx)
    requires forall k :: idx <= k < q ==> Matches(s, k) == []
    requires Matches(s, q) != [] && lit == s[idx..q]
    ensures LexedUpTo(s, parsed + [LiteralSymb(lit)], q)
  {
    LexLiteralStep(s, idx, q);
    PrependPrepend(parsed, [LiteralSymb(lit)], LexFrom(s, q));
  }

  lemma AdvanceTrailingRun(s: string, parsed: seq<Symbol>, idx: nat)
    requires idx < |s| && LexedUpTo(s, parsed, idx)
    requires forall k :: idx <= k < |s| ==> Matches(s, k) == []
    ensures LexFrom(s, 0) == Success(parsed)
  {
    LexTrailingRun(s, idx);
    PrependEmpty(parsed);
  }

  lemma AdvanceSymbol(s: string, parsed: seq<Symbol>, idx: nat)
    requires idx < |s| && Matches(s, idx) != [] && LexedUpTo(s, parsed, idx)
    requires Longest(s, idx) != Quote
    ensures LexedUpTo(s, parsed + [Longest(s, idx)], idx + Len(Longest(s, idx)))
  {
    LexSymbolStep(s, idx);
    PrependPrepend(parsed, [Longest(s, idx)], LexFrom(s, idx + Len(Longest(s, idx))));
  }

  lemma AdvanceUnterminated(s: string, parsed: seq<Symbol>, idx: nat)
    requires idx < |s| && Matches(s, idx) != [] && LexedUpTo(s, parsed, idx)
    requires Longest(s, idx) == Quote && ClosingQuote(s, idx + 1) == |s|
    ensures LexFrom(s, 0) == Failure(UnterminatedString(idx + 1))
  {
    LexUnterminatedStep(s, idx);
  }

  lemma AdvanceString(s: string, parsed: seq<Symbol>, idx: nat, q: nat, body: string)
    requires idx < |s| && Matches(s, idx) != [] && LexedUpTo(s, parsed, idx)
    requires Longest(s, idx) == Quote
    requires q == ClosingQuote(s, idx + 1) < |s| && body == s[idx + 1..q]
    ensures LexedUpTo(s, parsed + [StringLiteral(body)], q + 1)
  {
    LexQuoteStep(s, idx, q, body);
    PrependPrepend(parsed, [StringLiteral(body)], LexFrom(s, q + 1));
  }

  /** `parse`: tokenizes `s`. */
  /** The branch of the main loop taken when no symbol starts at `idx`. */
  method StepLiteral(s: string, parsed: seq<Symbol>, idx: nat)
    returns (parsed': seq<Symbol>, idx': nat, finished: bool)
    requires |s| < UsizeMax && idx < |s| && LexedUpTo(s, parsed, idx)
    requires |Matches(s, idx)| == 0
    ensures finished ==> LexFrom(s, 0) == Success(parsed')
    ensures idx <= idx' <= |s|
    ensures !finished ==> idx < idx' && LexedUpTo(s, parsed', idx')
  {
    var collectOffset, atEnd := CollectLiteral(s, idx, All);
    if atEnd {
      AdvanceTrailingRun(s, parsed, idx);
      parsed', idx', finished := parsed, idx, true;
    } else {
      var lit := SliceStr(s, idx, idx + collectOffset);
      AdvanceLiteral(s, parsed, idx, idx + collectOffset, lit);
      parsed', idx', finished := parsed + [LiteralSymb(lit)], idx + collectOffset, false;
    }
  }

  /** The branch of the main loop taken when the longest symbol at `idx` is a quote. */
  method StepString(s: string, parsed: seq<Symbol>, idx: nat)
    returns (r: Result<(seq<Symbol>, nat), LexError>)
    requires |s| < UsizeMax && idx < |s| && LexedUpTo(s, parsed, idx)
    requires |Matches(s, idx)| > 0 && Longest(s, idx) == Quote
    ensures r.Failure? ==> LexFrom(s, 0) == Failure(r.error)
    ensures r.Success? ==> idx < r.value.1 <= |s| && LexedUpTo(s, r.value.0, r.value.1)
  {
    var start := idx + Len(Quote);
    var quote := ScanQuote(s, start);
    if quote.Failure? {
      AdvanceUnterminated(s, parsed, idx);
      return Failure(quote.error);
    }
    var quoteOffset := quote.value;
    var body := SliceStr(s, start, start + quoteOffset);
    AdvanceString(s, parsed, idx, start + quoteOffset, body);
    r := Success((parsed + [StringLiteral(body)], start + quoteOffset + 1));
  }

  /** The branch of the main loop taken when the longest symbol at `idx` is not a quote. */
  method StepSymbol(s: string, parsed: seq<Symbol>, idx: nat, chosen: Symbol)
    returns (parsed': seq<Symbol>, idx': nat)
    requires idx < |s| && LexedUpTo(s, parsed, idx)
    requires |Matches(s, idx)| > 0 && chosen == Longest(s, idx) && chosen != Quote
    ensures idx < idx' <= |s| && LexedUpTo(s, parsed', idx')
  {
    AdvanceSymbol(s, parsed, idx);
    parsed', idx' := parsed + [chosen], idx + Len(chosen);
  }

  method Parse(s: string) returns (r: Result<seq<Symbol>, LexError>)
    requires |s| < UsizeMax
    ensures r == LexFrom(s, 0)
  {
    var symbols := All;
    var parsed: seq<Symbol> := [];
    var outerDone := false;
    var idx := 0;
    PrependNothing(LexFrom(s, 0));
    while !outerDone
      invariant idx <= |s|
      invariant !outerDone ==> LexedUpTo(s, parsed, idx)
      invariant outerDone ==> LexFrom(s, 0) == Success(parsed)
      decreases if outerDone then 0 else 1, |s| - idx
    {
      if idx >= |s| {
        PrependEmpty(parsed);
        break;
      }
      var possibleSyms := GetPossibleSymbols(s, idx, symbols);
      MatchesDef(s, idx);
      if |possibleSyms| == 0 {
        parsed, idx, outerDone := StepLiteral(s, parsed, idx);
      } else {
        var symIdx := FindLongest(possibleSyms);
        var chosenSym := possibleSyms[symIdx];
        if chosenSym == Quote {
          var step := StepString(s, parsed, idx);
          if step.Failure? {
            return Failure(step.error);
          }
          parsed, idx := step.value.0, step.value.1;
        } else {
          parsed, idx := StepSymbol(s, parsed, idx, chosenSym);
        }
      }
    }
    r := Success(parsed);
  }

  /** The tokens the tokenizer can emit: literals are non-empty, string
      bodies hold no quote, and the quote symbol itself is never emitted. */
  predicate Emittable(t: Symbol) {
    match t
    case LiteralSymb(p) => |p| > 0
    case StringLiteral(p) => '"' !in p
    case _ => t != Quote
  }

  /** The source text a token stands for: a string literal with its quotes
      put back, any other token its text. */
  function RenderToken(t: Symbol): string {
    if t.StringLiteral? then "\"" + t.payload + "\"" else Text(t)
  }

  function Render(ts: seq<Symbol>): string {
    if |ts| == 0 then "" else RenderToken(ts[0]) + Render(ts[1..])
  }

  lemma RenderCons(t: Symbol, ts: seq<Symbol>)
    ensures Render([t] + ts) == RenderToken(t) + Render(ts)
  {
    assert ([t] + ts)[1..] == ts;
  }

  lemma PrefixJoin(x: string, p: nat, a: string, c: string)
    requires p + |a| <= |x| && a == x[p..p + |a|] && c <= x[p + |a|..]
    ensures a + c <= x[p..]
  {
    assert (a + c) == x[p..][..|a| + |c|];
  }

  /** A lexing result that is faithful to the text from `i` on: its tokens
      are well formed, rendering them gives back a prefix of the input from
      `i`, and what is left after them is a run in which no symbol starts
      (the dropped trailing literal). Failures are vacuously faithful. */
  ghost predicate Faithful(s: string, i: nat, r: Result<seq<Symbol>, LexError>)
    requires i <= |s|
  {
    r.Success? ==>
      (forall t :: t in r.value ==> Emittable(t))
      && Render(r.value) <= s[i..]
      && forall k :: i + |Render(r.value)| <= k < |s| ==> Matches(s, k) == []
  }

  lemma FaithfulCons(s: string, i: nat, tok: Symbol, j: nat, r: Result<seq<Symbol>, LexError>)
    requires i < j <= |s| && Emittable(tok) && RenderToken(tok) == s[i..j]
    requires Faithful(s, j, r)
    ensures Faithful(s, i, Prepend([tok], r))
  {
    if r.Success? {
      RenderCons(tok, r.value);
      PrefixJoin(s, i, s[i..j], Render(r.value));
    }
  }

  lemma StringToken(s: string, i: nat, q: nat)
    requires i < |s| && s[i] == '"' && q == ClosingQuote(s, i + 1) < |s|
    ensures Emittable(StringLiteral(s[i + 1..q])) && RenderToken(StringLiteral(s[i + 1..q])) == s[i..q + 1]
  {
    assert s[i..q + 1] == [s[i]] + s[i + 1..q] + [s[q]];
  }

  lemma SymbolToken(s: string, i: nat)
    requires i < |s| && Matches(s, i) != [] && Longest(s, i) != Quote
    ensures Emittable(Longest(s, i)) && RenderToken(Longest(s, i)) == s[i..i + Len(Longest(s, i))]
  {
    LongestMatches(s, i);
  }

  /** Lexing is faithful to the text (see `Faithful`). */
  lemma {:induction false} LexRendersInput(s: string, i: nat)
    requires i <= |s|
    ensures Faithful(s, i, LexFrom(s, i))
    decreases |s| - i
  {
    if i == |s| {
    } else if Matches(s, i) == [] {
      var q := NextMatch(s, i + 1);
      if q == |s| {
        LexTrailingRun(s, i);
      } else {
        LexRendersInput(s, q);
        LiteralFaithful(s, i, q);
      }
    } else if Longest(s, i) == Quote {
      var q := ClosingQuote(s, i + 1);
      if q == |s| {
        LexUnterminatedStep(s, i);
      } else {
        LexRendersInput(s, q + 1);
        QuoteFaithful(s, i, q);
      }
    } else {
      var j := i + Len(Longest(s, i));
      LexRendersInput(s, j);
      SymbolFaithful(s, i, j);
    }
  }

  /** A run of unmatched characters keeps the lexing faithful. */
  lemma LiteralFaithful(s: string, i: nat, q: nat)
    requires i < q < |s| && Matches(s, i) == [] && q == NextMatch(s, i + 1)
    requires Faithful(s, q, LexFrom(s, q))
    ensures Faithful(s, i, LexFrom(s, i))
  {
    LexLiteralStep(s, i, q);
    FaithfulCons(s, i, LiteralSymb(s[i..q]), q, LexFrom(s, q));
  }

  /** A closed string literal keeps the lexing faithful. */
  lemma QuoteFaithful(s: string, i: nat, q: nat)
    requires i < |s| && Matches(s, i) != [] && Longest(s, i) == Quote
    requires q == ClosingQuote(s, i + 1) < |s|
    requires Faithful(s, q + 1, LexFrom(s, q + 1))
    ensures Faithful(s, i, LexFrom(s, i))
  {
    var body := s[i + 1..q];
    LexQuoteStep(s, i, q, body);
    QuoteAt(s, i);
    StringToken(s, i, q);
    FaithfulCons(s, i, StringLiteral(body), q + 1, LexFrom(s, q + 1));
  }

  /** Where the quote symbol is taken, the text has a quote character. */
  lemma QuoteAt(s: string, i: nat)
    requires i < |s| && Matches(s, i) != [] && Longest(s, i) == Quote
    ensures s[i] == '"'
  {
    LongestMatches(s, i);
    assert Text(Quote) <= s[i..];
    assert s[i..][0] == '"';
  }

  /** A symbol other than the quote keeps the lexing faithful. */
  lemma SymbolFaithful(s: string, i: nat, j: nat)
    requires i < |s| && Matches(s, i) != [] && Longest(s, i) != Quote
    requires j == i + Len(Longest(s, i))
    requires Faithful(s, j, LexFrom(s, j))
    ensures Faithful(s, i, LexFrom(s, i))
  {
    LexSymbolStep(s, i);
    SymbolToken(s, i);
    FaithfulCons(s, i, Longest(s, i), j, LexFrom(s, j));
  }

  /** On input that ends in a newline nothing is dropped: rendering the
      tokens gives back the whole input. */
  lemma LexWholeInput(s: string)
    requires |s| > 0 && s[|s| - 1] == '\n'
    ensures LexFrom(s, 0).Success? ==> Render(LexFrom(s, 0).value) == s
  {
    LexRendersInput(s, 0);
    var last := |s| - 1;
    assert Text(NewLine) <= s[last..];
    LongestIsMaximal(s, last, NewLine);
    if LexFrom(s, 0).Success? {
      var out := Render(LexFrom(s, 0).value);
      assert |out| == |s|;
    }
  }

  /** A double quote switches to string mode: everything up to the next quote
      is one string literal, neither quote is emitted, and lexing resumes
      after the closing quote; with no closing quote lexing fails. */
  lemma StringMode(s: string, i: nat)
    requires i < |s| && s[i] == '"'
    ensures ClosingQuote(s, i + 1) == |s| ==> LexFrom(s, i) == Failure(UnterminatedString(i + 1))
    ensures ClosingQuote(s, i + 1) < |s| ==>
      LexFrom(s, i) == Prepend([StringLiteral(s[i + 1..ClosingQuote(s, i + 1)])], LexFrom(s, ClosingQuote(s, i + 1) + 1))
  {
    QuoteOpensString(s, i);
    var q := ClosingQuote(s, i + 1);
    if q == |s| {
      LexUnterminatedStep(s, i);
    } else {
      LexQuoteStep(s, i, q, s[i + 1..q]);
    }
  }
}
