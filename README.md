# Eight, modelled in Dafny

Eight is a small tree-walking interpreter written in Rust. Source text is first
lexed into symbols by longest-prefix matching against a fixed symbol table. A
recursive-descent parser with a whitespace-skipping cursor then builds
statements, typing each expression statically as it goes, and folds flat
operand/operator lists into trees by a fixed operator order. A relation pass
(`optimize_ast`) collects what each statement creates and reads. The
interpreter then runs the statements on a 1000-slot working stack and a list of
name-to-value frames.

This project models that core and proves properties of the model. The modules
follow the Rust modules:

- `Symbols` (symbols.dfy): the symbol catalogue, its texts, categories and
  `sort_by_longest`.
- `Lexing` (lexing.dfy): `check_symbol`, `get_possible_symbols` and the lexer
  `parse`, proved against a recursive reference lexer `LexFrom`.
- `Whitespace` (whitespace.dfy): the `CodeWhitespace` chunker as a class over a
  sequence of chunks.
- `Util` and `Common` (util.dfy, common.dfy): `slice_str`, the `consume_until_*`
  loops on the cursor, and `is_varname_valid`.
- `Context` (context.dfy): the parse cursor as a class, with `get_safe_multiple`,
  `increment`, `jump`, `back_to_linestart`, line numbers, snippets and the
  variable-type table.
- `Values` and `Expressions` (values.dfy, expressions.dfy): values, types,
  literal equality, casts, static typing of expressions, and relation entries of
  expressions.
- `Relations` and `Ast` (relations.dfy, ast.dfy): `RelationEntry` with `new`,
  `reduce`, `expand`, first-order filtering, and `optimize_ast`.
- `Grammar` (grammar.dfy): every parser of the expression grammar as a function
  of the symbols, the variable table and the cursor position. This is what the
  parser computes.
- `Parser` (parser.dfy): the same parsers as methods that move a `Context`,
  each proved to agree with its `Grammar` function.
- `Statements` (statements.dfy): `Variable::parse`, `Print::parse`, `parse_expr`,
  `parse_exprs` and `start_parse`.
- `Organize` (organize.dfy): `organize_secondary_expression_list`,
  `split_lhs_rhs` and `BinaryOperator::parse`.
- `ParseCases` (parse_cases.dfy): what the parser does on concrete programs.
- `Functions` (functions.dfy): argument lists, signature matching and the
  built-in calls that `Database::csv` and `ThreadPool::new` build.
- `Memory` (memory.dfy): `MemRef`, the `Stack` with its free-slot array, and
  `Frame`.
- `Running` (interpreter.dfy): `EightInterpreter` as a class, proved against a
  value `Machine` of its state.
- `Evaluator` (evaluator.dfy): the `run_secondary_expr` and `run_expr` methods
  and `EightInterpreter::step`/`run`, each a method on the interpreter proved
  against a function on `Machine`.

Wherever the Rust code panics, the model returns an error value, unless the
panic guards an internal invariant that callers keep. Those invariants are
`requires` clauses. The model follows the code as written, including its
quirks:

- `parse_function_call` reads the current symbol twice without advancing, so it
  never parses a call. As a result `print(...)`, `fmt(...)` and
  `Database::csv(...)` are never recognised.
- A one-element list `[e]` reads as the empty list.
- Multiplication is folded before division, and addition before subtraction.
- `increment` skips at most one whitespace symbol.
- `pop_or_clear_frame` drops the oldest frame.
- `grab_arg` removes by index from a list that shrinks with each removal. The
  `k`-th removal therefore takes argument `2k`, skipping every other argument.
- The static type of `==` is its operands' type.

Lemmas state each of these quirks.

Integers are unbounded in Dafny. `i32` values are a subset type of `int`, and
arithmetic overflow is a fault, as in a debug build. `/` and `%` are written out
as Rust's truncating operators. A thread count `as u8` is written out as its low
eight bits. Strings are sequences of characters, one character per byte (ASCII).

## Model

| member | source | states |
|---|---|---|
| Symbols.LenIsTextLength | rust_memes/src/eight/common/tokenizing/symbols.rs:60-62 | a symbol's `len` is the length of its text (`to_str`) |
| Symbols.OfTypeMembers | rust_memes/src/eight/common/tokenizing/symbols.rs:28-58 | a symbol is in a category's list iff it is one of the listed symbols and carries that category |
| Symbols.CategoryListMembers | rust_memes/src/eight/common/tokenizing/symbols.rs:137-174 | over the whole catalogue, a category's list holds exactly the fixed symbols declared with that category |
| Symbols.EveryCategoryUsed | rust_memes/src/eight/common/tokenizing/symbols.rs:124-174 | every category has at least one symbol, so the `unwrap` in `get_symbols_by_type` never fails |
| Symbols.CategoriesDistinct | rust_memes/src/eight/common/tokenizing/symbols.rs:137-174 | no symbol is declared with the same category twice |
| Symbols.PushToCategories | rust_memes/src/eight/common/tokenizing/symbols.rs:31-49 | pushing one symbol appends it to the list of each of its categories (creating the list when absent) and leaves every other category's list unchanged |
| Symbols.BuildCategoryMap | rust_memes/src/eight/common/tokenizing/symbols.rs:28-54 | the map has a key exactly for the categories some symbol carries, and each list holds those symbols in catalogue order |
| Symbols.GetSymbolHashmap | rust_memes/src/eight/common/tokenizing/symbols.rs:28-54 | every category is a key, mapped to its members in catalogue order |
| Symbols.GetSymbolsByType | rust_memes/src/eight/common/tokenizing/symbols.rs:56-58 | the symbols of a category, in catalogue order |
| Symbols.ToStrs | rust_memes/src/eight/common/tokenizing/symbols.rs:105-112 | one text per symbol of the category, in the same order, each the symbol's `to_str` |
| Symbols.LongestIndex | rust_memes/src/eight/common/tokenizing/symbols.rs:70-81 | the index of a longest symbol, the first one among equally long ones |
| Symbols.FindLongest | rust_memes/src/eight/common/tokenizing/symbols.rs:70-81 | the scan with a strict `>` finds exactly that first longest index |
| Symbols.SortByLongest | rust_memes/src/eight/common/tokenizing/symbols.rs:64-87 | the repeated remove-longest loop yields the selection order `LongestFirst` |
| Symbols.LongestFirst | rust_memes/src/eight/common/tokenizing/symbols.rs:64-87 | defines the selection order: the first longest remaining symbol is taken out and placed next, until none are left |
| Symbols.LongestFirstPermutes | rust_memes/src/eight/common/tokenizing/symbols.rs:64-87 | the sorted list is a permutation of the input |
| Symbols.LongestFirstSorted | rust_memes/src/eight/common/tokenizing/symbols.rs:64-87 | lengths in the sorted list never increase |
| Symbols.LongestFirstStable | rust_memes/src/eight/common/tokenizing/symbols.rs:64-87 | among symbols of equal length the input order is kept (the sort is stable) |
| Symbols.TextsDistinct | rust_memes/src/eight/common/tokenizing/symbols.rs:137-174 | fixed-symbol texts are non-empty and pairwise distinct |
| Symbols.WhitespaceMembers | rust_memes/src/eight/common/tokenizing/symbols.rs:165-169 | the Whitespace category is exactly newline, carriage return, space and `\r\n`; no fixed symbol is a tab |
| Symbols.NewlineMembers | rust_memes/src/eight/common/tokenizing/symbols.rs:165-169 | the Newline category is exactly newline, carriage return and `\r\n`, all of them whitespace |
| Symbols.FixedShape | rust_memes/src/eight/common/tokenizing/symbols.rs:137-174 | fixed texts have one to three characters, only `let` has three, and only the quote starts with `"` |
| Lexing.CheckSymbol | rust_memes/src/eight/common/tokenizing/lexing.rs:5-12 | `Some(sym)` exactly when the text of `sym` is a prefix of the string, `None` otherwise |
| Lexing.PrefixesOfMembers | rust_memes/src/eight/common/tokenizing/lexing.rs:14-27 | a symbol is among the possible symbols iff it is in the list given and its text starts the rest of the input |
| Lexing.GetPossibleSymbols | rust_memes/src/eight/common/tokenizing/lexing.rs:14-27 | the loop collects, in list order, exactly the symbols whose text starts at `idx` |
| Lexing.CatalogueFixed | rust_memes/src/eight/common/tokenizing/symbols.rs:24-26 | everything `get_all` lists is a fixed symbol (never a literal or string literal) |
| Lexing.FixedTextsNonEmpty | rust_memes/src/eight/common/tokenizing/symbols.rs:137-174 | every fixed symbol has a non-empty text, so taking one always advances the cursor |
| Lexing.Longest | rust_memes/src/eight/common/tokenizing/lexing.rs:69-80 | the symbol taken where some symbol matches is a fixed symbol whose text fits in the rest of the input |
| Lexing.LongestMatches | rust_memes/src/eight/common/tokenizing/lexing.rs:69-80 | the symbol taken is one of the matches and its text starts at the cursor |
| Lexing.LongestIsMaximal | rust_memes/src/eight/common/tokenizing/lexing.rs:69-80 | longest match: no fixed symbol starting at the cursor is longer than the one taken, and one of equal length is the one taken |
| Lexing.FixedMatches | rust_memes/src/eight/common/tokenizing/lexing.rs:14-27 | any fixed symbol whose text starts at the cursor is among the possible symbols |
| Lexing.KeywordIsPrefix | rust_memes/src/eight/common/tokenizing/lexing.rs:67-80 | `let` is taken wherever its text starts, even at the start of a longer word |
| Lexing.TwoCharacterWins | rust_memes/src/eight/common/tokenizing/lexing.rs:67-80 | a two-character symbol is taken whole rather than its one-character prefix |
| Lexing.LongestExamples | rust_memes/src/eight/common/tokenizing/lexing.rs:67-80 | `**` beats `*`, `==` beats `=`, `\r\n` beats `\r`, and `//` and `/*` beat `/` |
| Lexing.QuoteOpensString | rust_memes/src/eight/common/tokenizing/lexing.rs:81-82 | a double-quote character is always taken as the quote symbol |
| Lexing.NextMatch | rust_memes/src/eight/common/tokenizing/lexing.rs:44-66 | the first position at or after `p` where a symbol matches (or the end), with no match in between |
| Lexing.ClosingQuote | rust_memes/src/eight/common/tokenizing/lexing.rs:83-99 | the first double quote at or after `p` (or the end), with no quote in between |
| Lexing.LexSymbolStep | rust_memes/src/eight/common/tokenizing/lexing.rs:79-108 | a symbol other than the quote is emitted as it is and lexing resumes after its text |
| Lexing.LexUnterminatedStep | rust_memes/src/eight/common/tokenizing/lexing.rs:83-88 | a quote with no closing quote after it makes lexing fail, at the position after the quote |
| Lexing.LexQuoteStep | rust_memes/src/eight/common/tokenizing/lexing.rs:83-106 | a closed quote emits the text between the quotes as a string literal and resumes after the closing quote |
| Lexing.LexTrailingRun | rust_memes/src/eight/common/tokenizing/lexing.rs:44-52 | a run of unmatched characters that reaches the end of the input is dropped, not emitted |
| Lexing.LexLiteralStep | rust_memes/src/eight/common/tokenizing/lexing.rs:44-66 | a run of unmatched characters followed by a match becomes one literal symbol |
| Lexing.CollectLiteral | rust_memes/src/eight/common/tokenizing/lexing.rs:44-66 | the inner loop stops at the next position where a symbol matches, or reports reaching the end; nothing matches in between |
| Lexing.ScanQuote | rust_memes/src/eight/common/tokenizing/lexing.rs:83-99 | the quote loop finds the offset of the closing quote, or fails when the input ends first |
| Lexing.AdvanceLiteral | rust_memes/src/eight/common/tokenizing/lexing.rs:58-64 | pushing the collected literal keeps the main loop's invariant (pushed symbols followed by the rest's lexing is the whole result) |
| Lexing.AdvanceTrailingRun | rust_memes/src/eight/common/tokenizing/lexing.rs:47-51 | when the run reaches the end, the symbols pushed so far are the whole result |
| Lexing.AdvanceSymbol | rust_memes/src/eight/common/tokenizing/lexing.rs:79-108 | pushing a non-quote symbol keeps the main loop's invariant |
| Lexing.AdvanceUnterminated | rust_memes/src/eight/common/tokenizing/lexing.rs:85-87 | an unterminated quote makes the whole lexing fail |
| Lexing.AdvanceString | rust_memes/src/eight/common/tokenizing/lexing.rs:101-106 | pushing a string literal keeps the main loop's invariant |
| Lexing.StepLiteral | rust_memes/src/eight/common/tokenizing/lexing.rs:43-66 | the no-match branch either finishes with the complete result or advances with the invariant kept |
| Lexing.StepString | rust_memes/src/eight/common/tokenizing/lexing.rs:82-107 | the quote branch either fails as the whole lexing does or advances with the invariant kept |
| Lexing.StepSymbol | rust_memes/src/eight/common/tokenizing/lexing.rs:79-108 | the other-symbol branch advances with the invariant kept |
| Lexing.Parse | rust_memes/src/eight/common/tokenizing/lexing.rs:29-116 | `parse` returns exactly the recursive lexing `LexFrom(s, 0)`, which the lemmas below characterise |
| Lexing.LexFrom | rust_memes/src/eight/common/tokenizing/lexing.rs:29-116 | defines the reference lexer from a position: a matched symbol, a quoted string or an unmatched literal run, then the rest of the input |
| Lexing.StringToken | rust_memes/src/eight/common/tokenizing/lexing.rs:101-106 | a string literal renders back, with its quotes, as the text it was read from |
| Lexing.SymbolToken | rust_memes/src/eight/common/tokenizing/lexing.rs:108 | an emitted symbol renders back as the text it was read from |
| Lexing.FaithfulCons | rust_memes/src/eight/common/tokenizing/lexing.rs:29-116 | a well-formed token that renders as the next piece of input keeps a faithful result faithful |
| Lexing.LexRendersInput | rust_memes/src/eight/common/tokenizing/lexing.rs:29-116 | the tokens are well formed, rendering them gives back a prefix of the input, and only an unmatched trailing run is dropped |
| Lexing.LiteralFaithful | rust_memes/src/eight/common/tokenizing/lexing.rs:44-66 | a literal run keeps the lexing faithful to the text |
| Lexing.QuoteFaithful | rust_memes/src/eight/common/tokenizing/lexing.rs:82-107 | a closed string keeps the lexing faithful to the text |
| Lexing.QuoteAt | rust_memes/src/eight/common/tokenizing/lexing.rs:81-82 | where the quote symbol is taken, the input has a double-quote character |
| Lexing.SymbolFaithful | rust_memes/src/eight/common/tokenizing/lexing.rs:108 | a non-quote symbol keeps the lexing faithful to the text |
| Lexing.LexWholeInput | rust_memes/src/eight.rs:123-125 | on input ending in a newline (as `start_parse` supplies it) rendering the tokens gives back the whole input |
| Lexing.StringMode | rust_memes/src/eight/common/tokenizing/lexing.rs:82-107 | a `"` switches to string mode: everything up to the next `"` is one string literal, no quote is emitted, lexing resumes after it, and without a closing quote lexing fails |
| Whitespace.AllWsFrom | rust_memes/src/eight/common/tokenizing/whitespace.rs:24-29 | the per-character loop accepts iff every character from the position on is a space, line feed, carriage return or tab |
| Whitespace.CheckIsWhitespace | rust_memes/src/eight/common/tokenizing/whitespace.rs:16-31 | a string is whitespace iff all its characters are one of the four whitespace characters; the empty string counts as whitespace |
| Whitespace.CountNewlinesAdds | rust_memes/src/eight/common/tokenizing/whitespace.rs:244-257 | the line-feed count is the number of occurrences of `'\n'` and adds up over concatenation |
| Whitespace.NewCodeChunk | rust_memes/src/eight/common/tokenizing/whitespace.rs:244-257 | the chunk keeps its text and flag, and its count is the number of line feeds in the text |
| Whitespace.NewlinesInConcat | rust_memes/src/eight/common/tokenizing/whitespace.rs:103-109 | for well-formed chunks the summed counts equal the line feeds of the concatenated text |
| Whitespace.ConcatAppend | rust_memes/src/eight/common/tokenizing/whitespace.rs:140-143 | the text of a chunk list splits over concatenation of lists |
| Whitespace.SplitChunks | rust_memes/src/eight/common/tokenizing/whitespace.rs:34-69 | the loop yields at least one chunk, the chunks spell the snippet back, and every chunk's flag and count agree with its text |
| Whitespace.PushChunk | rust_memes/src/eight/common/tokenizing/whitespace.rs:52-69 | each push extends the spelled prefix to the new cut point and keeps every chunk well formed |
| Whitespace.RemoveInsertTwice | rust_memes/src/eight/common/tokenizing/whitespace.rs:202-213 | removing position `i` and inserting `s` then `f` there replaces the element at `i` by `f`, `s` |
| Whitespace.SplitChunkAt | rust_memes/src/eight/common/tokenizing/whitespace.rs:202-213 | the list edit puts the chunks for `f` and `s` in place of chunk `i`, leaving the rest, and keeps the list well formed |
| Whitespace.FirstNonWsChunk | rust_memes/src/eight/common/tokenizing/whitespace.rs:146-161 | the first non-whitespace chunk at or after the position, with only whitespace chunks before it; it exists iff one is left |
| Whitespace.AfterNewline | rust_memes/src/eight/common/tokenizing/whitespace.rs:226-240 | the stop lies just past the first chunk holding a line feed, all chunks before it hold none, or it is the end |
| Whitespace.CodeWhitespace.constructor | rust_memes/src/eight/common/tokenizing/whitespace.rs:34-75 | the cursor is on the first chunk and the chunks are well formed and spell the snippet back |
| Whitespace.CodeWhitespace.NewlineCount | rust_memes/src/eight/common/tokenizing/whitespace.rs:103-109 | the count is one more than the line feeds of the whole text |
| Whitespace.CodeWhitespace.GetLineNoFromIndex | rust_memes/src/eight/common/tokenizing/whitespace.rs:115-122 | the line on which chunk `index` starts: one more than the line feeds in the text before it |
| Whitespace.CodeWhitespace.GetCurrentLineNo | rust_memes/src/eight/common/tokenizing/whitespace.rs:124-126 | the line on which the chunk under the cursor starts |
| Whitespace.CodeWhitespace.IndexesToRaw | rust_memes/src/eight/common/tokenizing/whitespace.rs:128-144 | the text of the chunks from `start` to `end` clamped to the chunk count; empty when `start` is past the chunks or `end` before `start` |
| Whitespace.CodeWhitespace.PeekByIdx | rust_memes/src/eight/common/tokenizing/whitespace.rs:175-190 | true iff some chunk at or after the position is not whitespace |
| Whitespace.CodeWhitespace.Peek | rust_memes/src/eight/common/tokenizing/whitespace.rs:192-194 | true iff some chunk at or after the cursor is not whitespace |
| Whitespace.CodeWhitespace.PeekMultiple | rust_memes/src/eight/common/tokenizing/whitespace.rs:163-173 | true iff `peek_by_idx` holds at each of the `times` positions from the cursor |
| Whitespace.CodeWhitespace.Get | rust_memes/src/eight/common/tokenizing/whitespace.rs:146-161 | moves the cursor to the first non-whitespace chunk and returns its text, and fails iff there is none; the chunks are unchanged |
| Whitespace.CodeWhitespace.SplitCurrent | rust_memes/src/eight/common/tokenizing/whitespace.rs:196-215 | when `peek` holds the chunk under the cursor is replaced by chunks for `f` and `s`; otherwise nothing changes; well-formedness is kept |
| Whitespace.CodeWhitespace.Increment | rust_memes/src/eight/common/tokenizing/whitespace.rs:217-219 | the cursor moves one chunk forward; the chunks are unchanged |
| Whitespace.CodeWhitespace.Decrement | rust_memes/src/eight/common/tokenizing/whitespace.rs:221-224 | the cursor moves one chunk back; the chunks are unchanged |
| Whitespace.CodeWhitespace.IncrementToNewline | rust_memes/src/eight/common/tokenizing/whitespace.rs:226-240 | the cursor ends just past the next chunk holding a line feed, or at the end; the chunks are unchanged |
| Whitespace.SplitKeepsText | rust_memes/src/eight/common/tokenizing/whitespace.rs:196-215 | splitting a chunk into two parts of its own text keeps the text of the whole snippet |
| Whitespace.SplitKeepsChunked | rust_memes/src/eight/common/tokenizing/whitespace.rs:196-215 | replacing a well-formed chunk by two well-formed chunks keeps every chunk well formed |
| Whitespace.ChunkExample | rust_memes/src/eight/common/tokenizing/whitespace.rs:16-31 | the empty string and a run of space, tab and line feed are whitespace; a word is not |
| Util.SliceStr | rust_memes/src/eight/common/parsing/util.rs:4-18 | the slice starts at `start` clamped to the string and ends at `end` clamped to the string (`usize::MAX` meaning "to the end"), never before its start; the panicking combinations are excluded by `requires` |
| Util.SliceStrSplits | rust_memes/src/eight/common/parsing/util.rs:4-18 | two adjacent slices concatenate to the slice spanning both |
| Util.ConsumeTypeFrom | rust_memes/src/eight/common/parsing/util.rs:20-52 | a successful scan moves the cursor strictly forward and stays within the symbols; the only failure is EOF |
| Util.ConsumeTypeFinds | rust_memes/src/eight/common/parsing/util.rs:34-51 | a successful scan stops one `increment` past a symbol of the category; a failed one saw none except whitespace members stepped over by `increment` |
| Util.ConsumeTypeSkipsNewline | rust_memes/src/eight/common/parsing/util.rs:34-51 | the scan for a line break misses a `NewLine` right after a non-whitespace symbol, so it runs to EOF on `c NL x NL` |
| Util.ConsumeUntilSymbolType | rust_memes/src/eight/common/parsing/util.rs:20-52 | the loop succeeds exactly when the scan does, leaves the cursor where the scan stops, and keeps the variable table |
| Util.ConsumeSymFrom | rust_memes/src/eight/common/parsing/util.rs:54-63 | a successful search moves the cursor strictly forward and stays within the symbols; the only failure is EOF |
| Util.ConsumeSymFinds | rust_memes/src/eight/common/parsing/util.rs:54-63 | the search succeeds iff the sought symbol is non-whitespace and occurs in the non-whitespace view from the cursor |
| Util.IncNonWs | rust_memes/src/eight/common/parsing/util.rs:56-61 | one `increment` passes over the next non-whitespace symbol only when the cursor is on it, and otherwise over whitespace alone |
| Util.ConsumeSymCanStopOnMatch | rust_memes/src/eight/common/parsing/util.rs:56-58 | with two spaces before `*/` the increment after the match lands on the `*/` itself |
| Util.ConsumeUntilSymbol | rust_memes/src/eight/common/parsing/util.rs:54-63 | the loop succeeds exactly when the search does, leaves the cursor where the search stops, and keeps the variable table |
| Common.VarnameMatchesPattern | rust_memes/src/eight/common.rs:20-27 | the character scan accepts exactly the names the pattern `^[a-zA-Z]+\w*$` matches |
| Common.IsVarnameValid | rust_memes/src/eight/common.rs:20-27 | defines a valid name: non-empty, an ASCII letter first, and only letters, digits and `_` after it |
| Common.VarnameRejections | rust_memes/src/eight/common.rs:20-27 | the empty name, a leading digit or underscore, and any non-word character are refused |
| Common.VarnameExamples | rust_memes/src/eight/common.rs:24 | `x`, `count_2`, `Ab9` are accepted; `2x`, `_x`, `a-b`, `a b` are refused |
| Context.WhitespaceSymbols | rust_memes/src/eight/common/parsing/context.rs:126 | the whitespace list the cursor compares against holds exactly the whitespace symbols |
| Context.NewlineSymbols | rust_memes/src/eight/common/parsing/context.rs:244-245 | the longest-first newline list holds exactly the newline symbols |
| Context.SafeMultiple | rust_memes/src/eight/common/parsing/context.rs:113-166 | with at least `n` non-whitespace symbols left the result is the next `n` of them as `Ok`; otherwise it is all that remain followed by one EOF error |
| Context.NextNonWs | rust_memes/src/eight/common/parsing/context.rs:142-162 | the position found is the first non-whitespace symbol at or after the cursor: everything before it is whitespace |
| Context.Peek | rust_memes/src/eight/common/parsing/context.rs:168-170 | a symbol the lookahead returns lies at or after the cursor and is never whitespace |
| Context.SafeOneIsPeek | rust_memes/src/eight/common/parsing/context.rs:168-170 | `get_safe` is the one element of `get_safe_multiple(1)`: the first non-whitespace symbol, or EOF |
| Context.IncSkipsAtMostOne | rust_memes/src/eight/common/parsing/context.rs:204-219 | `increment` moves forward by one or two, skips only whitespace, and leaves the cursor on whitespace only after two whitespace symbols in a row |
| Context.LineStart | rust_memes/src/eight/common/parsing/context.rs:77-84 | the backward walk stops at or before where it starts |
| Context.LineStartIsLastBreak | rust_memes/src/eight/common/parsing/context.rs:77-84 | the walk stops at 0 or on a `NewLine`/`WindowsNewLine`, and no such break lies between there and the start |
| Context.Context.constructor | rust_memes/src/eight/common/parsing/context.rs:46-54 | the context holds the given code, symbols and cursor, with an empty variable table |
| Context.Context.GetVartype | rust_memes/src/eight/common/parsing/context.rs:17-19 | succeeds iff the name is declared, with its recorded type; otherwise an unknown-variable error |
| Context.Context.PutVar | rust_memes/src/eight/common/parsing/context.rs:56-58 | the table maps the name to the new type and is otherwise unchanged; reading the name back gives the type |
| Context.Context.GetVarnames | rust_memes/src/eight/common/parsing/context.rs:60-67 | every declared name appears, exactly once, and nothing else |
| Context.Context.GetRaw | rust_memes/src/eight/common/parsing/context.rs:69-74 | succeeds iff the cursor is on a symbol, whitespace included, and returns that symbol |
| Context.Context.Jump | rust_memes/src/eight/common/parsing/context.rs:105-111 | after a jump `get_index` reports the target; the table is untouched |
| Context.Context.HasNext | rust_memes/src/eight/common/parsing/context.rs:189-198 | `has_next` holds exactly when `get_raw` would not panic |
| Context.Context.GetSafeMultiple | rust_memes/src/eight/common/parsing/context.rs:113-166 | the nested scanning loops return exactly `SafeMultiple` of the symbols from the cursor |
| Context.Context.GetSafe | rust_memes/src/eight/common/parsing/context.rs:168-170 | returns the first non-whitespace symbol at or after the cursor, or EOF |
| Context.Context.GetMultiple | rust_memes/src/eight/common/parsing/context.rs:172-183 | succeeds iff `n` non-whitespace symbols remain, returning exactly those; the failure is EOF |
| Context.Context.Get | rust_memes/src/eight/common/parsing/context.rs:185-187 | returns the lookahead symbol, which is never whitespace, or EOF |
| Context.Context.Increment | rust_memes/src/eight/common/parsing/context.rs:200-219 | the cursor ends where `Inc` says (one step, plus one more over a whitespace symbol); the table is untouched |
| Context.Context.BackToLinestart | rust_memes/src/eight/common/parsing/context.rs:76-86 | the cursor ends one increment past the last line break at or before it (or past position 0) |
| Context.Context.GetLineNo | rust_memes/src/eight/common/parsing/context.rs:242-256 | the line number is one plus the number of newline-category symbols strictly before the cursor |
| Context.Context.GetSnippet | rust_memes/src/eight/common/parsing/context.rs:258-269 | the snippet is the texts of the next five symbols from the cursor, or of all that remain when fewer |
| Values.LiteralType | rust_memes/src/eight/literals.rs:39-46 | a literal's type is Boolean, String or Number exactly for a boolean, string or number literal |
| Values.NamespaceTypeMatchesKind | rust_memes/src/eight/values/namespaces.rs:35-44 | two namespace handles share a type tag exactly when they are the same kind of handle |
| Values.ConvertToType | rust_memes/src/eight/values.rs:60-72 | a list value has the list type of its element type, a function value the function type of its signature |
| Values.BasicTypesAreLiterals | rust_memes/src/eight/values.rs:61-71 | a value has a basic type iff it is a literal, `NoneType` iff it is the none value, a namespace type iff it is a namespace handle |
| Values.ValueEqMeaning | rust_memes/src/eight/values.rs:26-37 | run-time `==` succeeds exactly on two literals of the same type, is then true exactly on equal values, and is symmetric |
| Values.ValueEq | rust_memes/src/eight/values.rs:26-37 | a comparison that succeeds compares two literals; it is true only of equal values; a non-literal left operand is the panic, as a `CannotEquate` fault |
| Values.ImplicitNumber | rust_memes/src/eight/literals/basic/number.rs:45-56 | the cast succeeds exactly on a Number value and returns the number it holds |
| Values.ImplicitString | rust_memes/src/eight/literals/basic/string.rs:45-51 | the cast succeeds exactly on a String value and returns the text it holds |
| Values.DecimalRoundTrip | rust_memes/src/eight/literals/basic/string.rs:60-62 | the decimal rendering of a natural number is all digits and reads back as the number |
| Values.ParseDigitsI32 | rust_memes/src/eight/literals/basic/number.rs:85-93 | an all-digit string parses iff it is non-empty and its value fits an `i32`, giving that value |
| Values.ParseRendersBack | rust_memes/src/eight/literals/basic/number.rs:85-93 | the decimal rendering of every non-negative `i32` parses back to it |
| Values.ExplicitString | rust_memes/src/eight/literals/basic/string.rs:53-72 | the explicit cast keeps a string, renders a boolean as `true`/`false` and succeeds iff the value is a literal |
| Values.ExplicitNumberReadsBack | rust_memes/src/eight/literals/basic/string.rs:60-62 | a non-negative number's rendering parses back to it; a negative one is `-` and the magnitude |
| Values.ThreadPoolOf | rust_memes/src/eight/values/namespaces/stdlib/threads.rs:73-79 | the pool's count is below 256 and equals the requested count when that fits a `u8` |
| Values.ThreadPoolWraps | rust_memes/src/eight/values/namespaces/stdlib/threads.rs:76 | counts 256 apart make the same pool, and negative counts wrap around from 255 |
| Expressions.OrderEntries | rust_memes/src/eight/expressions/secondary.rs:108-119 | the fold order is `^`, `*`, `/`, `/`, `%`, `+`, `-`, `==`, with `/` listed twice |
| Expressions.BinopSymbols | rust_memes/src/eight/expressions/secondary/operators/binary.rs:167-192 | `sym_to_binop` and `binop_to_sym` are inverse to each other, and the symbols that name an operator are exactly those of the fold order |
| Expressions.SymToBinop | rust_memes/src/eight/expressions/secondary/operators/binary.rs:167-180 | a symbol names an operator exactly when it is in the fold order, and `binop_to_sym` of that operator gives the symbol back; any other symbol is the panic, as `None` |
| Expressions.BinopToSym | rust_memes/src/eight/expressions/secondary/operators/binary.rs:182-192 | every operator's symbol is one of the fold order |
| Expressions.CompareLhsRhsType | rust_memes/src/eight/expressions/secondary/operators.rs:50-67 | the common type exists iff both sides are typed with the same type; the left error wins, then the right one, else a mismatch naming both types |
| Expressions.GetType | rust_memes/src/eight/expressions/secondary/operators/binary.rs:98-100 | only a binary operation, or parentheses around one, can fail to have a type; a typed binary operation has the type of both its operands |
| Expressions.TypeIsLeftmostLeaf | rust_memes/src/eight/expressions/secondary/operators/binary.rs:97-100 | an expression is typed iff the operands of every binary operation in it agree, and then its type is its leftmost leaf's, so `==` is typed as its operands rather than as a boolean |
| Expressions.ReferencesAreReads | rust_memes/src/eight/expressions/secondary.rs:100-106 | an expression's relations exist iff it holds no list; they create no name and reference exactly the variables it reads, counted with multiplicity |
| Expressions.GetReferences | rust_memes/src/eight/expressions/secondary/operators/binary.rs:102-104 | the only fault is the `todo!()` of a list (`NotImplemented`), and a list always hits it; a binary operation lists the right operand's entries before the left one's (`combine_references(rhs, lhs)`) |
| Expressions.ExprReferences | rust_memes/src/eight/expressions/primary/variable.rs:40-46 | the only fault is the list `todo!()`; a `let` gives one entry, which creates exactly its own name |
| Expressions.FmtRelationsAreReads | rust_memes/src/eight/expressions/primary/format.rs:22-31 | the one format entry exists iff no argument holds a list, creates nothing and references exactly what the arguments read |
| Expressions.ArgReferencesAreReads | rust_memes/src/eight/expressions/secondary/callfunc.rs:34-44 | the arguments' relations exist iff no argument holds a list, create nothing and reference exactly what the arguments read |
| Expressions.LetRelations | rust_memes/src/eight/expressions/primary/variable.rs:39-47 | a `let` whose value holds no list creates exactly its own name and references exactly what its value reads |
| Relations.NonEmptyMembers | rust_memes/src/eight/common/parsing/ast.rs:183-188 | the kept sub-entries are exactly the non-empty ones |
| Relations.NonEmptyAppend | rust_memes/src/eight/common/parsing/ast.rs:183-188 | pruning distributes over concatenation, so the kept entries stay in their order |
| Relations.NonEmptyKeepsNonEmpty | rust_memes/src/eight/common/parsing/ast.rs:183-188 | a list without empty entries is kept as it is, so pruning twice is pruning once |
| Relations.New | rust_memes/src/eight/common/parsing/ast.rs:178-194 | the entry keeps its own names, holds no empty sub-entry, and is empty iff it has no names and every given sub-entry was empty |
| Relations.NewRelationEntry | rust_memes/src/eight/common/parsing/ast.rs:178-194 | the copying loop builds exactly the pruned entry |
| Relations.NamesAllNonEmpty | rust_memes/src/eight/common/parsing/ast.rs:183-188 | pruning empty sub-entries loses no created or referenced name |
| Relations.Reduce | rust_memes/src/eight/common/parsing/ast.rs:41-53 | a reduced entry has no sub-entries |
| Relations.ReduceIdempotent | rust_memes/src/eight/common/parsing/ast.rs:41-53 | reducing keeps every created and referenced name in order, and reducing twice is reducing once |
| Relations.ReduceRelationEntry | rust_memes/src/eight/common/parsing/ast.rs:41-53 | the recursive loop builds the entry holding the entry's own names followed by each sub-entry's, in order |
| Relations.ExpandIsFlat | rust_memes/src/eight/common/parsing/ast.rs:15-39 | every element of an expansion has no sub-entries |
| Relations.ExpandHead | rust_memes/src/eight/common/parsing/ast.rs:15-39 | an entry expands to nothing iff it is empty, and otherwise to its own names first |
| Relations.ExpandKeepsCreates | rust_memes/src/eight/common/parsing/ast.rs:15-39 | the names created by the expanded elements are, with multiplicity, all the names the entry creates |
| Relations.ExpandRelationEntry | rust_memes/src/eight/common/parsing/ast.rs:15-39 | the loop yields the entry's own names, then each sub-entry's expansion popped from the back, with empty elements dropped |
| Relations.Expand | rust_memes/src/eight/common/parsing/ast.rs:15-39 | defines the expansion: nothing for an empty entry, else the entry's own names, then each sub-entry's expansion popped from the back with the empty elements dropped |
| Relations.PopAllNonEmpty | rust_memes/src/eight/common/parsing/ast.rs:31-36 | popping every element and keeping the non-empty ones yields the list reversed and pruned |
| Relations.FirstOrderRelations | rust_memes/src/eight/common/parsing/ast.rs:55-74 | the result has the input's shape, and keeps an entry exactly when it creates a name and has no references or sub-entries, else holds `None` |
| Relations.CloneEntry | rust_memes/src/eight/common/parsing/ast.rs:203-217 | the copy equals the original |
| Ast.ReferencesOf | rust_memes/src/eight/common/parsing/ast.rs:83-99 | on success there is one entry list per statement, each that statement's relation entries |
| Ast.ReferencesOfSucceeds | rust_memes/src/eight/common/parsing/ast.rs:83-99 | the entries are computed iff every statement has them |
| Ast.FailingPrefixDecides | rust_memes/src/eight/common/parsing/ast.rs:83-99 | the first statement without entries decides the fault; nothing after it matters |
| Ast.ListDeclarationFaults | rust_memes/src/eight/common/parsing/ast.rs:83-99 | a program that declares a list has no entries, so it never gets through `optimize_ast` |
| Ast.EightAst.constructor | rust_memes/src/eight/common/parsing/ast.rs:11-13 | the tree holds the given statements |
| Ast.EightAst.References | rust_memes/src/eight/common/parsing/ast.rs:83-99 | the collecting loop returns exactly the entries of the statements, or the first fault |
| Ast.EightAst.PopAll | rust_memes/src/eight/common/parsing/ast.rs:157-163 | the popped statements, reversed, are the statements it had, and none are left |
| Ast.EightAst.OptimizeAst | rust_memes/src/eight/common/parsing/ast.rs:76-167 | fails iff some statement has no entries, then with that fault and the tree untouched; otherwise returns all statements in order as one batch and empties the tree |
| Grammar.Current | rust_memes/src/eight/common/parsing/context.rs:185-187 | `get` succeeds iff a non-whitespace symbol is left, returning it; otherwise it stops with an unexpected end |
| Grammar.BoolAt | rust_memes/src/eight/literals/basic/bool.rs:43-64 | the boolean parser moves past one token exactly when it yields a literal, and otherwise leaves the cursor in place |
| Grammar.StringAt | rust_memes/src/eight/literals/basic/string.rs:76-84 | the string parser moves past one token exactly when it yields a literal, and otherwise leaves the cursor in place |
| Grammar.NumberAt | rust_memes/src/eight/literals/basic/number.rs:62-97 | the number parser moves past one token exactly when it yields a literal, and otherwise leaves the cursor in place |
| Grammar.LiteralAt | rust_memes/src/eight/literals.rs:53-88 | `parse_literal` moves past one token exactly when it yields a literal, and otherwise leaves the cursor in place |
| Grammar.LiteralAtMeaning | rust_memes/src/eight/literals.rs:53-88 | `parse_literal` yields a literal iff the next symbol spells it (`true`/`false`, a string token, or all-digit text of that value), and fails iff no symbol is left |
| Grammar.NumberSpelling | rust_memes/src/eight/literals/basic/number.rs:65-93 | every non-negative `i32` is spelled by its decimal digits, and no token spells a negative number |
| Grammar.MatchOpAt | rust_memes/src/eight/expressions/secondary.rs:121-130 | succeeds exactly when a symbol is left, and then yields that symbol exactly when it is one of the operator order, `None` otherwise; the end of input is `UnexpectedEnd` |
| Grammar.VarRefAt | rust_memes/src/eight/literals/basic/variableref.rs:44-65 | a variable reference moves past one token exactly when it is found, and otherwise leaves the cursor in place |
| Grammar.NamespaceYieldsNothing | rust_memes/src/eight/values/namespaces.rs:46-88 | namespaces never yield an expression; the cursor moves only past `Model ::`, and `Database` or `ThreadPool` always fail |
| Grammar.FunctionCallAt | rust_memes/src/eight/literals/basic/functions.rs:91-123 | never parses a call: with a symbol left it answers `None` with the cursor unmoved, and at the end of input it is the `UnexpectedEnd` error |
| Grammar.FormatAt | rust_memes/src/eight/expressions/primary/format.rs:63-80 | never yields a `fmt` expression: `None` at the same position whenever a symbol is left |
| Grammar.ClassFuncAt | rust_memes/src/eight/values/namespaces/database.rs:19-50 | `Model` yields nothing with the cursor in place; `Database` and `ThreadPool` always fail, with `InvalidNamespaceMember` when a symbol is left |
| Grammar.NamespaceAt | rust_memes/src/eight/values/namespaces.rs:46-88 | never yields an expression, and a symbol that is not a namespace name leaves the cursor in place |
| Grammar.SecondaryAt | rust_memes/src/eight/expressions/secondary.rs:392-401 | a parsed secondary expression always has a static type, and the cursor ends past it |
| Grammar.PartialAt | rust_memes/src/eight/expressions/secondary.rs:247-390 | the list yielded alternates operand and operator, starts and ends with an operand, and every operand is typed; the cursor moves past it |
| Grammar.OperandAt | rust_memes/src/eight/expressions/secondary.rs:248-351 | an operand found is typed and the cursor moves past it |
| Grammar.FallbackAt | rust_memes/src/eight/expressions/secondary.rs:324-351 | the result is the expression already in hand or a typed reference read further on |
| Grammar.ParenAt | rust_memes/src/eight/expressions/secondary/parentheses.rs:16-34 | no `(` leaves the cursor in place; otherwise the parenthesised expression is typed and the cursor moves past the `)` |
| Grammar.CloseParenAt | rust_memes/src/eight/expressions/secondary/parentheses.rs:22-29 | succeeds exactly on a `)`, consuming it and wrapping the inner expression, whose type it keeps |
| Grammar.ListAt | rust_memes/src/eight/literals/basic/list.rs:57-94 | no `[` leaves the cursor in place; a list read is either the empty list of `NoneType` or two or more elements all of the element type |
| Grammar.ListRestAt | rust_memes/src/eight/literals/basic/list.rs:75-90 | the loop extends the elements read so far with at least one more, all of the first element's type |
| Grammar.ElementAt | rust_memes/src/eight/literals/basic/list.rs:23-55 | an element is typed with its own type, and the cursor is left on the `,` or `]` that says whether more follow |
| Grammar.SecondaryOfOperand | rust_memes/src/eight/expressions/secondary.rs:381-386 | an operand with no operator after it is the whole secondary expression |
| Grammar.ElementOf | rust_memes/src/eight/literals/basic/list.rs:23-55 | a typed expression after the `[` or `,` followed by `,` or `]` is the element read, with its type |
| Grammar.SingletonReadsEmpty | rust_memes/src/eight/literals/basic/list.rs:62-66 | `[x]` reads as the empty list with the `]` left under the cursor: it is not a one-element list |
| Grammar.ListContinues | rust_memes/src/eight/literals/basic/list.rs:68-76 | a first element followed by `,` hands over to the loop with that element and its type |
| Grammar.ListRestLast | rust_memes/src/eight/literals/basic/list.rs:81-86 | an element of the list's type followed by `]` ends the list and consumes the `]` |
| Grammar.ListOperand | rust_memes/src/eight/expressions/secondary.rs:268-279 | a list read at `[` is the operand there |
| Grammar.OperandAtParen | rust_memes/src/eight/expressions/secondary.rs:255-306 | the literal, list and `fmt` alternatives all pass over `(` |
| Grammar.ReferenceOverridesParentheses | rust_memes/src/eight/expressions/secondary.rs:296-351 | a parenthesised expression followed by a declared variable's name is replaced by a reference to that variable |
| Grammar.CallArgsAt | rust_memes/src/eight/literals/basic/functions.rs:61-89 | the arguments are one or more typed expressions, separated by `,` and ended by a consumed `)` |
| Parser.ParseBool | rust_memes/src/eight/literals/basic/bool.rs:43-64 | returns what `Grammar.BoolAt` answers and, on success, leaves the cursor where it stops; the variable table is untouched |
| Parser.ParseString | rust_memes/src/eight/literals/basic/string.rs:76-84 | returns what `Grammar.StringAt` answers and, on success, leaves the cursor where it stops; the variable table is untouched |
| Parser.ParseNumber | rust_memes/src/eight/literals/basic/number.rs:62-97 | the digit-checking loop and `parse::<i32>` give exactly the `Grammar.NumberAt` answer and cursor; the table is untouched |
| Parser.ParseLiteral | rust_memes/src/eight/literals.rs:53-88 | returns what `Grammar.LiteralAt` answers and, on success, leaves the cursor where it stops; the variable table is untouched |
| Parser.MatchOperatorSymbol | rust_memes/src/eight/expressions/secondary.rs:121-130 | the loop over the operator order answers exactly `Grammar.MatchOpAt` |
| Parser.ParseVariableRef | rust_memes/src/eight/literals/basic/variableref.rs:44-65 | the search through the declared names gives exactly the `Grammar.VarRefAt` answer and cursor; the table is untouched |
| Parser.ParseFunctionCall | rust_memes/src/eight/literals/basic/functions.rs:91-123 | answers `Grammar.FunctionCallAt`: because `get` is called twice without moving, a call is never recognised |
| Parser.ParseFunctionCallArgs | rust_memes/src/eight/literals/basic/functions.rs:61-89 | returns what `Grammar.CallArgsAt` answers and, on success, leaves the cursor where it stops; the variable table is untouched |
| Parser.PrependArgs | rust_memes/src/eight/literals/basic/functions.rs:62-88 | the arguments read so far come first, then those still to come; it fails iff the rest does |
| Parser.PrependArgsAssoc | rust_memes/src/eight/literals/basic/functions.rs:64-87 | reading one more argument moves it from the rest to the arguments already read |
| Parser.ParseFormat | rust_memes/src/eight/expressions/primary/format.rs:63-81 | returns what `Grammar.FormatAt` answers and, on success, leaves the cursor where it stops; the variable table is untouched |
| Parser.ParseClassFunc | rust_memes/src/eight/values/namespaces/model.rs:11-18 | answers `Grammar.ClassFuncAt`: `Model` yields nothing, the other namespaces report an invalid member |
| Parser.ParseNamespace | rust_memes/src/eight/values/namespaces.rs:46-88 | returns what `Grammar.NamespaceAt` answers and, on success, leaves the cursor where it stops; the variable table is untouched |
| Parser.ParseSecondary | rust_memes/src/eight/expressions/secondary.rs:392-401 | returns what `Grammar.SecondaryAt` answers and, on success, leaves the cursor where it stops; the variable table is untouched |
| Parser.PartialParse | rust_memes/src/eight/expressions/secondary.rs:247-390 | returns what `Grammar.PartialAt` answers and, on success, leaves the cursor where it stops; the variable table is untouched |
| Parser.ParseOperand | rust_memes/src/eight/expressions/secondary.rs:248-351 | returns what `Grammar.OperandAt` answers and, on success, leaves the cursor where it stops; the variable table is untouched |
| Parser.ParseFallback | rust_memes/src/eight/expressions/secondary.rs:324-351 | returns what `Grammar.FallbackAt` answers and, on success, leaves the cursor where it stops; the variable table is untouched |
| Parser.ParseParentheses | rust_memes/src/eight/expressions/secondary/parentheses.rs:16-34 | returns what `Grammar.ParenAt` answers and, on success, leaves the cursor where it stops; the variable table is untouched |
| Parser.ParseList | rust_memes/src/eight/literals/basic/list.rs:57-94 | returns what `Grammar.ListAt` answers and, on success, leaves the cursor where it stops; the variable table is untouched |
| Parser.ParseListRest | rust_memes/src/eight/literals/basic/list.rs:75-90 | the element loop returns what `Grammar.ListRestAt` answers from the elements read so far and, on success, leaves the cursor where it stops; the variable table is untouched |
| Parser.ParseElement | rust_memes/src/eight/literals/basic/list.rs:23-55 | returns what `Grammar.ElementAt` answers and, on success, leaves the cursor where it stops; the variable table is untouched |
| Statements.Declared | rust_memes/src/eight.rs:95-101 | a declaration records its value's type under its name; nothing else changes the table |
| Statements.VariableAt | rust_memes/src/eight/expressions/primary/variable.rs:51-131 | without `let` nothing is parsed and the cursor stays; a declaration parsed has a valid name and a typed value, and the cursor moves past its `;` |
| Statements.LetReads | rust_memes/src/eight/expressions/primary/variable.rs:81-117 | after `let`, a valid name and `=`, a `;` after the value completes the declaration and any other symbol is a missing-semicolon error |
| Statements.PrintAt | rust_memes/src/eight/expressions/primary/print.rs:45-72 | succeeds exactly when a symbol is left, and then yields nothing and leaves the cursor in place: no print statement is ever recognised |
| Statements.ExprAt | rust_memes/src/eight.rs:36-80 | the end marker is returned iff no symbol is left; any other success moves the cursor, and a statement yielded is a declaration |
| Statements.ExprsFromStep | rust_memes/src/eight.rs:86-117 | one turn of the loop: an error ends it, the end marker ends it with the statements collected, anything else is kept and the loop continues after it |
| Statements.OnlyDeclarationsParse | rust_memes/src/eight.rs:57-73 | a statement starting with neither `let` nor a comment, `print` included, is an unknown code fragment and stops the parse |
| Statements.ExprsFromDeclares | rust_memes/src/eight.rs:82-120 | the loop keeps the statements it had, and every statement it collects is a declaration |
| Statements.ExprsFromTable | rust_memes/src/eight.rs:82-120 | the table the loop leaves holds exactly the names known at the start and the names of the statements added |
| Statements.KeysStep | rust_memes/src/eight.rs:95-101 | recording one declaration adds exactly its name to the table's keys |
| Statements.ProgramsAreDeclarations | rust_memes/src/eight.rs:122-131 | a program that parses is a list of declarations, and its table holds exactly the names it declares |
| Statements.ParseVariable | rust_memes/src/eight/expressions/primary/variable.rs:51-131 | answers `VariableAt` and leaves the cursor where it stops; a declaration records its type with `put_var` |
| Statements.ParsePrint | rust_memes/src/eight/expressions/primary/print.rs:45-72 | answers `PrintAt`, leaving the table untouched |
| Statements.ParseExpr | rust_memes/src/eight.rs:36-80 | answers `ExprAt`, leaves the cursor where it stops, and updates the table as the declaration says |
| Statements.ParseExprs | rust_memes/src/eight.rs:82-120 | the loop succeeds iff `ExprsFrom` does, with its statements and its final table, and otherwise with its error |
| Statements.StartParse | rust_memes/src/eight.rs:122-131 | tokenizing the code with a newline appended and parsing from the start agrees with `ParseProgram`, error for error |
| Statements.ParseProgram | rust_memes/src/eight.rs:122-131 | defines a program's parse: the lexed code with a newline appended, parsed from the first symbol with an empty variable table |
| Organize.ToTransition | rust_memes/src/eight/expressions/secondary.rs:140-150 | the list keeps its length and each item is converted on its own: an operand becomes a transition operand, an operator stays intermediate |
| Organize.TransitionLeavesNoIntermediateOperand | rust_memes/src/eight/expressions/secondary.rs:152-186 | after the conversion no operand is left intermediate, so the expression-count limit, which counts only those, is never reached |
| Organize.Unwrap | rust_memes/src/eight/expressions/secondary/operators.rs:29-48 | an item yields its expression exactly when it is an operand; an operator is an error |
| Organize.SplitLhsRhs | rust_memes/src/eight/expressions/secondary/operators.rs:15-26 | succeeds exactly when the operator has an operand on each side, and then returns those two operands, the list without the three items and the position where they stood |
| Organize.BinaryParse | rust_memes/src/eight/expressions/secondary/operators/binary.rs:108-164 | on success the three items are replaced by one binary operation on the two operands at the operator's place, so the list is two shorter; once the split succeeds the only errors are an untyped operand or operand types that do not suit the operator |
| Organize.FindOperator | rust_memes/src/eight/expressions/secondary.rs:155-193 | returns the leftmost position at or after the start holding the operator, or none when no later item holds it |
| Organize.FindOp | rust_memes/src/eight/expressions/secondary.rs:157-193 | the scan finds the operator exactly when `FindOperator` does, at the same position |
| Organize.OrganizeSecondaryExpressionList | rust_memes/src/eight/expressions/secondary.rs:132-241 | the two loops and the final check give exactly `Organize`, error for error |
| Organize.Organize | rust_memes/src/eight/expressions/secondary.rs:132-241 | defines the fold: each operator of the order in turn, leftmost occurrence first, then the single remaining operand |
| Organize.FoldFromStep | rust_memes/src/eight/expressions/secondary.rs:155-202 | one round of the outer loop folds the operator of the order at that position and then the rest of the order |
| Organize.FoldOperatorStep | rust_memes/src/eight/expressions/secondary.rs:156-201 | one round of the inner loop: no occurrence leaves the list as it is, a failing fold stops the loop with its error, a successful one continues on the folded list |
| Organize.BinaryParseKeepsTokens | rust_memes/src/eight/expressions/secondary/operators/binary.rs:108-164 | folding an operator keeps the operands and operators the list spells from left to right |
| Organize.FoldOperatorKeepsTokens | rust_memes/src/eight/expressions/secondary.rs:156-201 | folding every occurrence of one operator keeps the tokens the list spells |
| Organize.FoldFromKeepsTokens | rust_memes/src/eight/expressions/secondary.rs:155-202 | folding the rest of the order keeps the tokens the list spells |
| Organize.OrganizeKeepsTokens | rust_memes/src/eight/expressions/secondary.rs:132-241 | the tree `organize` returns spells, from left to right, exactly the operands and operators it was given: precedence only regroups them |
| Organize.BinaryParseAlternating | rust_memes/src/eight/expressions/secondary/operators/binary.rs:108-164 | on a list alternating operand and operator, the split of an operator always succeeds and a successful fold leaves an alternating list with no new operator |
| Organize.FoldOperatorAlternating | rust_memes/src/eight/expressions/secondary.rs:156-201 | on an alternating list, folding one operator leaves an alternating list with none of it left, or fails only on a type error |
| Organize.FoldFromAlternating | rust_memes/src/eight/expressions/secondary.rs:155-212 | on an alternating list whose operators are all in the rest of the order, folding them leaves a single operand, or fails only on a type error |
| Organize.OrganizeAlternating | rust_memes/src/eight/expressions/secondary.rs:132-241 | on an alternating list (what the partial parser builds) `organize` can only fail on a type error: its structural panics cannot happen |
| Organize.BinaryParseTyped | rust_memes/src/eight/expressions/secondary/operators/binary.rs:108-164 | when every operand has a type, a successful fold keeps every operand typed |
| Organize.FoldOperatorTyped | rust_memes/src/eight/expressions/secondary.rs:156-201 | folding one operator keeps every operand typed |
| Organize.FoldFromTyped | rust_memes/src/eight/expressions/secondary.rs:155-202 | folding the rest of the order keeps every operand typed |
| Organize.OrganizeTyped | rust_memes/src/eight/expressions/secondary.rs:132-241 | on an alternating list of typed operands, a tree `organize` returns has a type |
| Organize.OrganizeOperand | rust_memes/src/eight/expressions/secondary.rs:204-221 | a lone operand, with nothing to fold, is returned as it is |
| Organize.SubtractionGroupsLeft | rust_memes/src/eight/expressions/secondary.rs:155-202 | a chain of one operator groups to the left: `10 - 2 - 3` is `(10 - 2) - 3` |
| Organize.MultiplyBeforeDivide | rust_memes/src/eight/expressions/secondary.rs:108-119 | multiplication is folded before division, wherever it stands: `8 / 2 * 2` is `8 / (2 * 2)` |
| Organize.AddBeforeSubtract | rust_memes/src/eight/expressions/secondary.rs:108-119 | addition is folded before subtraction: `10 - 2 + 3` is `10 - (2 + 3)` |
| ParseCases.OneIsNumber | rust_memes/src/eight/literals/basic/number.rs:62-97 | the literal `1` reads as the number one, one symbol on |
| ParseCases.ParenthesesRead | rust_memes/src/eight/expressions/secondary/parentheses.rs:16-34 | `(1)` reads as a parenthesised number, with the cursor after the space that follows it |
| ParseCases.ReferenceReplacesParentheses | rust_memes/src/eight/expressions/secondary.rs:296-351 | in `(1) x` with `x` declared, the operand read is the reference to `x`: the parenthesised expression is overwritten |
| ParseCases.ClosingIsNoOperator | rust_memes/src/eight/expressions/secondary.rs:121-130 | a separator or closing symbol matches no operator of the order |
| ParseCases.DigitIsNumber | rust_memes/src/eight/expressions/secondary.rs:247-401 | a one-digit literal followed by a separator is a secondary expression holding that number, ending on the separator |
| ParseCases.LetXReads | rust_memes/src/eight/expressions/primary/variable.rs:81-117 | after `let x = ` the value is read from the symbol after the blank, and a `;` after it completes the declaration while any other symbol is an error |
| ParseCases.SingletonListIsEmpty | rust_memes/src/eight/literals/basic/list.rs:57-94 | `[1]` reads as the empty list, with the cursor left on its `]` |
| ParseCases.SingletonListBreaksDeclaration | rust_memes/src/eight/expressions/primary/variable.rs:86-116 | `let x = [1];` is rejected with a missing `;`, since the check finds the `]`; parsing the program stops there |
| ParseCases.DigitBeforeSeparator | rust_memes/src/eight/literals/basic/number.rs:62-97 | a digit directly followed by a separator reads as its number, one symbol on |
| ParseCases.PairListAt | rust_memes/src/eight/literals/basic/list.rs:57-94 | `[1, 2]` reads whole as a list of two numbers, its `]` consumed |
| ParseCases.PairListRead | rust_memes/src/eight/expressions/secondary.rs:392-401 | the list is the whole value of the declaration, ending on the `;` |
| ParseCases.PairStatement | rust_memes/src/eight.rs:57-65 | `let x = [1, 2];` is one declaration statement, read up to the end |
| ParseCases.LetStatement | rust_memes/src/eight.rs:57-65 | a statement starting with `let` that parses as a declaration is what `parse_expr` returns |
| ParseCases.LetXStatement | rust_memes/src/eight.rs:57-65 | `let x = `, a value and `;` make the declaration of `x` with that value |
| ParseCases.DeclarationKept | rust_memes/src/eight.rs:94-101 | a declaration read by `parse_expr` is kept, its type recorded, and the loop goes on after it |
| ParseCases.EndKeeps | rust_memes/src/eight.rs:75-78 | at the end of the symbols the loop stops with the statements and table it has |
| ParseCases.PairListDeclares | rust_memes/src/eight.rs:82-120 | the program `let x = [1, 2];` parses to that one declaration and records `x` as a list of numbers |
| ParseCases.PairListStopsOptimizer | rust_memes/src/eight/common/parsing/ast.rs:83-99 | that program parses, but `optimize_ast` then fails on it, since a list has no relation entries |
| Functions.NewFromValue | rust_memes/src/eight/literals/basic/functions/signature.rs:43-50 | the signature holds the argument types given, in the same order, and the output type given |
| Functions.CheckFromMeaning | rust_memes/src/eight/literals/basic/functions/signature.rs:77-101 | the scan from an index succeeds exactly when every later argument has its declared type; otherwise it reports the first one that does not |
| Functions.SignatureCheckMeaning | rust_memes/src/eight/literals/basic/functions/signature.rs:66-104 | matching succeeds exactly when the counts agree and every argument has its declared type; differing counts are an arity error, and otherwise the error names the first argument whose type is unknown or wrong, with the given and the expected type |
| Functions.MatchSignature | rust_memes/src/eight/literals/basic/functions/signature.rs:66-104 | the length check and the counting loop answer exactly `SignatureCheck` |
| Functions.MatchOutput | rust_memes/src/eight/literals/basic/functions/signature.rs:52-64 | succeeds exactly when the output type is the declared one, and otherwise reports both types |
| Functions.FuncArgs.constructor | rust_memes/src/eight/literals/basic/functions/args.rs:10-12 | the argument list is the one given |
| Functions.FuncArgs.Empty | rust_memes/src/eight/literals/basic/functions/args.rs:25-27 | the argument list is empty |
| Functions.FuncArgs.GrabArg | rust_memes/src/eight/literals/basic/functions/args.rs:21-23 | an index inside the list yields that argument and removes it, shifting the rest down; an index past the end is a fault and changes nothing |
| Functions.Remove | rust_memes/src/eight/literals/basic/functions/args.rs:21-23 | the list loses exactly the one element: one shorter, the same elements otherwise |
| Functions.GrabsShape | rust_memes/src/eight/expressions/secondary/callfunc.rs:69-71 | after k removals at indices 0 to k-1 the list holds the originals at odd positions below 2k then the untouched rest, so removal k takes original argument 2k and every other argument is skipped |
| Functions.GenerateFunc | rust_memes/src/eight/literals/basic/functions.rs:125-138 | succeeds exactly when the arguments match the signature, with a call of a built-in of that name and signature, typed as its output; otherwise the signature error |
| Functions.CreateCsvCall | rust_memes/src/eight/values/namespaces/database.rs:106-131 | only `csv` exists: it succeeds exactly on one String argument, building the `csv` built-in call; any other name is a function-not-found error |
| Functions.CreateThreadPoolCall | rust_memes/src/eight/values/namespaces/stdlib/threads.rs:53-70 | only `new` exists: it succeeds exactly on one Number argument, building the `new` built-in call; any other name is a function-not-found error |
| Functions.EmptySignatureTakesNothing | rust_memes/src/eight/literals/basic/functions/signature.rs:14-19 | the empty signature accepts exactly the empty argument list; any argument is an arity error |
| Memory.Copy | rust_memes/src/eight/common/running/memory/memref.rs:20-31 | the copy is a reference of the same kind with the same slot or name |
| Memory.GetAsStack | rust_memes/src/eight/common/running/memory/memref.rs:47-59 | yields the slot exactly for a stack reference, which is rebuilt from it; a frame or empty reference is a fault |
| Memory.GetAsFrame | rust_memes/src/eight/common/running/memory/memref.rs:61-73 | yields the name exactly for a frame reference, which is rebuilt from it; a stack or empty reference is a fault |
| Memory.MemRefKinds | rust_memes/src/eight/common/running/memory/memref.rs:33-85 | `stack`, `frame` and `empty` build references of exactly one kind (or none), and the accessors and `copy` give back what they were built from |
| Memory.LowestFreeFrom | rust_memes/src/eight/common/running/memory/stack.rs:24-32 | the first free slot at or above the start, with every slot between used; a fault only when every later slot is used |
| Memory.LowestFree | rust_memes/src/eight/common/running/memory/stack.rs:24-32 | the lowest slot below 1000 that holds nothing, every slot under it used; the stack-full fault exactly when all 1000 are used |
| Memory.StackInsert | rust_memes/src/eight/common/running/memory/stack.rs:34-53 | the value goes into the lowest free slot, the reference returned names that slot, and nothing else changes |
| Memory.StackTake | rust_memes/src/eight/common/running/memory/stack.rs:55-58 | succeeds exactly on a stack reference to a used slot, returning its value and emptying that slot only |
| Memory.StackGet | rust_memes/src/eight/common/running/memory/stack.rs:60-69 | succeeds exactly on a stack reference to a used slot, with that slot's value |
| Memory.InsertThenTake | rust_memes/src/eight/common/running/memory/stack.rs:51-69 | a value inserted is read back unchanged through the reference returned, and taking it out restores the stack as it was |
| Memory.StackFullMeansAllUsed | rust_memes/src/eight/common/running/memory/stack.rs:24-32 | an insert fails exactly when all 1000 slots are used |
| Memory.Stack.constructor | rust_memes/src/eight/common/running/memory/stack.rs:16-22 | a new stack holds no value and has all 1000 slots free |
| Memory.Stack.GetLowestFreeIndex | rust_memes/src/eight/common/running/memory/stack.rs:24-32 | the scan of the free flags finds `LowestFree` of the contents, the flags and contents agreeing |
| Memory.Stack.AllocSlot | rust_memes/src/eight/common/running/memory/stack.rs:34-39 | stores the value in the lowest free slot and marks it used, keeping flags and contents in agreement; a full stack is a fault |
| Memory.Stack.DeallocSlot | rust_memes/src/eight/common/running/memory/stack.rs:41-48 | empties the slot and marks it free; returns its value, or a fault when it held none |
| Memory.Stack.Insert | rust_memes/src/eight/common/running/memory/stack.rs:51-53 | does to the contents what `StackInsert` says and returns its reference |
| Memory.Stack.Take | rust_memes/src/eight/common/running/memory/stack.rs:55-58 | does to the contents what `StackTake` says and returns its value, or its fault |
| Memory.Stack.GetRef | rust_memes/src/eight/common/running/memory/stack.rs:60-69 | answers `StackGet` on the contents, changing nothing |
| Memory.AddVarTo | rust_memes/src/eight/common/running/memory/frame.rs:79-87 | the name is bound afterwards; a name already bound keeps its value, a new one gets the value given, and every other binding stays |
| Memory.Frame.constructor | rust_memes/src/eight/common/running/memory/frame.rs:17-21 | a new frame binds no variable |
| Memory.Frame.ContainsVar | rust_memes/src/eight/common/running/memory/frame.rs:23-29 | a frame reference to the name exactly when it is bound |
| Memory.Frame.Get | rust_memes/src/eight/common/running/memory/frame.rs:35-56 | the bound value exactly when the name is bound, otherwise an unknown-variable fault |
| Memory.Frame.Remove | rust_memes/src/eight/common/running/memory/frame.rs:45-47 | unbinds the name, returning its value, or a fault when it was unbound |
| Memory.Frame.AddVar | rust_memes/src/eight/common/running/memory/frame.rs:58-60 | answers true exactly when the name was unbound, and the bindings become `AddVarTo` of the old ones |
| Running.MAddValToStack | rust_memes/src/eight/common/running/interpreter.rs:50-52 | the value goes into a slot that was free and the reference returned names it; frames, output and the other slots are unchanged; a full stack is a fault |
| Running.MAddValToFrame | rust_memes/src/eight/common/running/interpreter.rs:90-92 | only the newest frame can change: the number of frames, the older frames, the stack and the output stay |
| Running.PopOrClearKeepsAFrame | rust_memes/src/eight/common/running/interpreter.rs:81-88 | popping never leaves the interpreter without a frame; with several frames the oldest, last in the list, is dropped and the newest kept; a sole frame is replaced by an empty one |
| Running.NewThenPopDropsOldest | rust_memes/src/eight/common/running/interpreter.rs:77-88 | pushing a frame and popping one leaves the new empty frame in front and loses the oldest frame; from a single frame every variable is gone |
| Running.StackValueRoundTrip | rust_memes/src/eight/common/running/interpreter.rs:50-62 | a value added to the stack is read back through the reference returned, and taking it restores the state |
| Running.PushTwiceThenPop | rust_memes/src/eight/common/running/interpreter.rs:50-68 | two values pushed in turn are both read back, and popping both slots restores the stack |
| Running.FrameValueRoundTrip | rust_memes/src/eight/common/running/interpreter.rs:54-92 | binding a name already bound in the newest frame changes nothing; a new binding is read back and taken out again, restoring the state |
| Running.EightInterpreter.constructor | rust_memes/src/eight/common/running/interpreter.rs:21-30 | a new interpreter has one empty frame, an empty stack and has printed nothing |
| Running.EightInterpreter.AddValToStack | rust_memes/src/eight/common/running/interpreter.rs:50-52 | the state and reference are those of `MAddValToStack` |
| Running.EightInterpreter.TakeVal | rust_memes/src/eight/common/running/interpreter.rs:54-62 | the state and value are those of `MTakeVal`: a stack slot emptied, a name unbound in the newest frame, or the None value for the empty reference |
| Running.MTakeVal | rust_memes/src/eight/common/running/interpreter.rs:54-62 | defines `take_val`: a stack value leaves its slot, a frame value is unbound from the newest frame, and the empty reference gives the None value |
| Running.EightInterpreter.PopStackVals | rust_memes/src/eight/common/running/interpreter.rs:64-68 | the state is that of `MPopStackVals`: a stack slot freed, anything else ignored |
| Running.MPopStackVals | rust_memes/src/eight/common/running/interpreter.rs:64-68 | defines `pop_stack_vals`: only a stack reference frees its slot |
| Running.EightInterpreter.AddValToFrame | rust_memes/src/eight/common/running/interpreter.rs:90-92 | the state is that of `MAddValToFrame`: `add_var` on the newest frame, its answer dropped |
| Running.EightInterpreter.AddMemToFrame | rust_memes/src/eight/common/running/interpreter.rs:70-75 | the state is that of `MAddMemToFrame`: a stack reference ignored, a frame reference bound in the newest frame, the empty reference a fault |
| Running.EightInterpreter.NewFrame | rust_memes/src/eight/common/running/interpreter.rs:77-79 | the state is that of `MNewFrame`: an empty frame in front of the others |
| Running.MNewFrame | rust_memes/src/eight/common/running/interpreter.rs:77-79 | defines `new_frame`: an empty frame becomes the newest |
| Running.EightInterpreter.PopOrClearFrame | rust_memes/src/eight/common/running/interpreter.rs:81-88 | the state is that of `MPopOrClearFrame` |
| Running.MPopOrClearFrame | rust_memes/src/eight/common/running/interpreter.rs:81-88 | defines `pop_or_clear_frame`: a sole frame becomes empty, otherwise the oldest frame is dropped |
| Running.EightInterpreter.GetValFromFrame | rust_memes/src/eight/common/running/interpreter.rs:98-106 | a frame reference exactly when the name is bound in the newest frame, otherwise an unknown-variable fault |
| Running.EightInterpreter.GetVal | rust_memes/src/eight/common/running/interpreter.rs:108-116 | the value of a stack slot or of a name in the newest frame, or the None value for the empty reference, changing nothing |
| Running.MGetVal | rust_memes/src/eight/common/running/interpreter.rs:108-116 | defines `get_val`: the value in the stack slot or in the newest frame, and the None value for the empty reference |
| Evaluator.InI32 | rust_memes/src/eight/expressions/secondary/operators/binary.rs:63-83 | a mathematical result is an `i32` exactly when it lies in the 32-bit range, and is then that same number; outside it is an overflow fault |
| Evaluator.Arith | rust_memes/src/eight/expressions/secondary/operators/binary.rs:62-87 | `+`, `-` and `*` give the exact result when it fits in 32 bits; a zero divisor of `/` or `%` and a negative exponent are faults |
| Evaluator.TruncDivision | rust_memes/src/eight/expressions/secondary/operators/binary.rs:75-80 | `/` and `%` pair up as Rust's do: dividend = divisor × quotient + remainder, the remainder smaller than the divisor and signed like the dividend, the quotient rounded toward zero |
| Evaluator.TruncDiv | rust_memes/src/eight/expressions/secondary/operators/binary.rs:73-75 | defines Rust's `/` on integers: the quotient rounded toward zero |
| Evaluator.TruncRem | rust_memes/src/eight/expressions/secondary/operators/binary.rs:76-78 | defines Rust's `%`: the remainder that goes with the truncated quotient |
| Evaluator.Pow | rust_memes/src/eight/expressions/secondary/operators/binary.rs:64-69 | defines `pow` for a non-negative exponent, before the range check |
| Evaluator.DivisionExamples | rust_memes/src/eight/expressions/secondary/operators/binary.rs:75-80 | `-7 / 2` is `-3` and `-7 % 2` is `-1`, not the Euclidean answers, and the most negative `i32` divided by `-1` overflows |
| Evaluator.Eval | rust_memes/src/eight/expressions/secondary.rs:64-93 | running an expression from a well-formed state that succeeds leaves a well-formed state |
| Evaluator.EvalFormat | rust_memes/src/eight/expressions/primary/format.rs:34-47 | running the rest of a `fmt` from a well-formed state that succeeds leaves a well-formed state |
| Evaluator.EvalCall | rust_memes/src/eight/expressions/secondary/callfunc.rs:48-108 | a call that succeeds leaves a well-formed state: at least one frame and stack values only in the 1000 slots |
| Evaluator.CallBody | rust_memes/src/eight/expressions/secondary/callfunc.rs:79-105 | the rest of a built-in call keeps the state well formed |
| Evaluator.EvalArgs | rust_memes/src/eight/expressions/secondary/callfunc.rs:69-78 | the argument loop keeps the state well formed |
| Evaluator.EvalArg | rust_memes/src/eight/expressions/secondary/callfunc.rs:70-77 | running and moving out one argument keeps the state well formed |
| Evaluator.AddAll | rust_memes/src/eight/expressions/secondary/callfunc.rs:80-86 | binding the argument values in the newest frame keeps the state well formed |
| Evaluator.RunBuiltin | rust_memes/src/eight/values/namespaces/stdlib/threads.rs:60-64 | running a built-in (the empty function, `Database::csv` or `ThreadPool::new`) keeps the state well formed |
| Evaluator.TakeBack | rust_memes/src/eight/expressions/secondary/callfunc.rs:90-96 | moving the `$i` values out of the call's frame keeps the state well formed |
| Evaluator.RestoreAll | rust_memes/src/eight/expressions/secondary/callfunc.rs:100-103 | binding the argument values back keeps the state well formed |
| Evaluator.EvalPrint | rust_memes/src/eight/expressions/primary/print.rs:22-35 | running the rest of a `print` keeps the state well formed |
| Evaluator.RunExpr | rust_memes/src/eight/expressions/primary.rs:37-46 | running a statement keeps the state well formed |
| Evaluator.RunAll | rust_memes/src/eight/common/running/interpreter.rs:39-48 | running the statements in order keeps the state well formed |
| Evaluator.Step | rust_memes/src/eight/common/running/interpreter.rs:32-37 | the state and reference are those `Eval` computes from the old state, for every kind of expression |
| Evaluator.StepBinary | rust_memes/src/eight/expressions/secondary/operators/binary.rs:46-94 | the state and reference are those `Eval` gives for the binary operation: both operands run, read, popped, and the value pushed |
| Evaluator.StepFormat | rust_memes/src/eight/expressions/primary/format.rs:34-47 | the state and reference are those of `EvalFormat` from the first argument and the empty text |
| Evaluator.StepCall | rust_memes/src/eight/expressions/secondary/callfunc.rs:48-108 | the state and reference are those of `EvalCall`, a user-defined body being a fault |
| Evaluator.RunCallBody | rust_memes/src/eight/expressions/secondary/callfunc.rs:79-105 | the state and reference are those of `CallBody`: new frame, arguments bound, built-in run, arguments taken back, frame popped, arguments restored |
| Evaluator.BindArgs | rust_memes/src/eight/expressions/secondary/callfunc.rs:80-86 | the state becomes `AddAll` of the old one |
| Evaluator.TakeArgsBack | rust_memes/src/eight/expressions/secondary/callfunc.rs:90-96 | the state and the pairs collected are those of `TakeBack` |
| Evaluator.RestoreArgs | rust_memes/src/eight/expressions/secondary/callfunc.rs:100-103 | the state is that of `RestoreAll` |
| Evaluator.CallArgs | rust_memes/src/eight/expressions/secondary/callfunc.rs:66-78 | the state, names and values are those of `EvalArgs` from the first index |
| Evaluator.ArgsLoopStep | rust_memes/src/eight/expressions/secondary/callfunc.rs:69-78 | one turn of the argument loop: a fault ends it with that fault, a success continues it with the argument's name, place and value appended |
| Evaluator.GrabAndRun | rust_memes/src/eight/expressions/secondary/callfunc.rs:70-77 | one turn of the argument loop, `grab_arg` then the argument run and moved out, agrees with `EvalArgs` |
| Evaluator.RunArg | rust_memes/src/eight/expressions/secondary/callfunc.rs:71-76 | the state and pair are those of `EvalArg`: `step`, then `take_val` |
| Evaluator.EvalArgsStep | rust_memes/src/eight/expressions/secondary/callfunc.rs:69-78 | a turn whose removal index is past the shrunk list faults; otherwise the argument's fault ends the loop or its success continues it |
| Evaluator.GrabbedArgument | rust_memes/src/eight/literals/basic/functions/args.rs:21-23 | removal number k takes original argument 2k |
| Evaluator.Call | rust_memes/src/eight/expressions/secondary/callfunc.rs:88 | the state and reference are those of `RunBuiltin` |
| Evaluator.RunVariable | rust_memes/src/eight/expressions/primary/variable.rs:27-36 | the state is that `RunExpr` gives for the declaration: value run, moved out of its place and bound in the newest frame |
| Evaluator.RunPrint | rust_memes/src/eight/expressions/primary/print.rs:22-35 | the state is that of `EvalPrint`: every argument run, read as a String and popped, then one line written |
| Evaluator.RunExpression | rust_memes/src/eight/expressions/primary.rs:37-46 | the state is that of `RunExpr`, the statements other than declarations and `print` being faults |
| Evaluator.Run | rust_memes/src/eight/common/running/interpreter.rs:39-48 | the state is that of `RunAll`: the statements in order, up to the first fault |
| Evaluator.EvalSettled | rust_memes/src/eight/expressions/secondary.rs:64-93 | running a call-free expression leaves frames and output alone, keeps every stack slot that was used, and a stack result is in a slot that was free |
| Evaluator.EvalFormatSettled | rust_memes/src/eight/expressions/primary/format.rs:34-47 | the same for the rest of a `fmt` of call-free arguments |
| Evaluator.SoundIsCallFree | rust_memes/src/eight/expressions/secondary.rs:64-93 | an expression whose static type the evaluator respects runs no call |
| Evaluator.EvalTypeSound | rust_memes/src/eight/expressions/secondary/operators/binary.rs:97-100 | type soundness: for such an expression with a static type, a successful run yields a value of exactly that type |
| Evaluator.FormatYieldsString | rust_memes/src/eight/expressions/primary/format.rs:34-53 | a successful `fmt` leaves a String, matching its static type |
| Evaluator.EqualityTypeMismatch | rust_memes/src/eight/expressions/secondary/operators/binary.rs:53-56 | `==` leaves a Boolean while its static type is its operands' type: `1 == 1` is typed Number but runs to `true` |
| Evaluator.EqualityYieldsBoolean | rust_memes/src/eight/expressions/secondary/operators/binary.rs:53-56 | a `==` that succeeds leaves a Boolean on the stack |
| Evaluator.OneEqualsOne | rust_memes/src/eight/expressions/secondary/operators/binary.rs:46-94 | `1 == 1` on a fresh interpreter leaves `true` in slot 0 and nothing else on the stack |
| Evaluator.LiteralArithmetic | rust_memes/src/eight/expressions/secondary/operators/binary.rs:46-94 | two number literals combine as `Arith` says, and their slots are freed before the result is pushed |
| Evaluator.PrintConcatenates | rust_memes/src/eight/expressions/primary/print.rs:22-35 | `print` of string literals writes one line, their concatenation, and leaves the stack as it was |
| Evaluator.FormatConcatenates | rust_memes/src/eight/expressions/primary/format.rs:34-47 | `fmt` of string literals pushes their concatenation and changes nothing else |
| Evaluator.PrintRejectsNumbers | rust_memes/src/eight/expressions/primary/print.rs:28-31 | `print` reads its arguments through the implicit String cast, so a number argument is a fault |
| Evaluator.LetMovesVariable | rust_memes/src/eight/expressions/primary/variable.rs:27-36 | `let y = x;` moves `x`: it succeeds, binds `y` to `x`'s value when `y` was unbound, and `x` is unbound afterwards |
| Evaluator.RedeclarationKeepsValue | rust_memes/src/eight/common/running/memory/frame.rs:79-87 | declaring a bound name again keeps its old value and frees the new value's slot: the state is unchanged |
| Evaluator.EmptyCallDropsOldestFrame | rust_memes/src/eight/common/running/interpreter.rs:77-88 | a call with no arguments to a built-in returning the empty reference leaves an empty frame in front and loses the oldest frame |
| Evaluator.CallsWithTwoArgumentsFail | rust_memes/src/eight/expressions/secondary/callfunc.rs:69-71 | a call with two or more arguments always faults, since the loop removes by an index that outruns the shrinking list |
| Evaluator.ArgsFail | rust_memes/src/eight/expressions/secondary/callfunc.rs:69-71 | from any index the argument loop over two or more arguments faults |
| Evaluator.ThreadPoolCall | rust_memes/src/eight/values/namespaces/stdlib/threads.rs:53-79 | `ThreadPool::new(n)` at the top level pushes a pool of `n` wrapped to 8 bits into the lowest free slot, leaving one empty frame |
| Evaluator.SingleArgument | rust_memes/src/eight/expressions/secondary/callfunc.rs:69-78 | a single number literal argument is pushed into the lowest free slot and moved out again, named `$0` |
| Evaluator.ThreadPoolBody | rust_memes/src/eight/expressions/secondary/callfunc.rs:79-105 | the body of `ThreadPool::new` with `$0` bound reads the count and pushes the pool, and the frames end as one empty frame |
| Evaluator.RunAllAppend | rust_memes/src/eight/common/running/interpreter.rs:39-48 | running two lists of statements one after the other is running them joined |

## Left out

- Process I/O is not part of this model: command-line parsing, file reading, logger setup, the console loop, the web UI and the local runner (`runners/local.rs`). The model starts from the source text and the parsed batches.
- Logging is dropped: every `debug!`/`trace!` call and the stray debug `println!` output. What `print` writes is modelled as the list of lines the interpreter emits.
- The text of panic and error messages, including the line number and the snippet shown in them, is not modelled. Each panic becomes an error kind. After a parse error the cursor position is left unspecified.
- `namespaces/model.rs` is not modelled beyond its `parse_class_func`, which yields no call. Everything else in it is `todo!()`.
- The `json` branch of `Database::parse_class_func`, which calls `exit(0)`, is not modelled. It is also unreachable, because no function call is ever parsed (see `Grammar.FunctionCallAt`).
- The `todo!()` bodies of `AccessibleValue` for `JSON`, `CSV`, `Model`, `BoolVal` and `NoOp` are not modelled. So are `ListExpression::get_references`/`run_secondary_expr` and `Func::call`. A model reaching any of them returns the `NotImplemented` fault.
- User-defined function bodies are not modelled: a `UserDefined` function has no body, and calling one is `NotImplemented`.
- `Values.ExplicitString`: the Debug-format rendering that `explicit_cast_to` gives a non-literal value is not modelled. Such a cast returns the `DebugFormatNotModelled` fault instead.
- `Evaluator.Arith`: `i32` overflow in `+`, `-`, `*` and `pow` is the `Overflow` fault of a debug build, not the wrap-around of a release build. `pow` is computed on mathematical integers, and for the non-negative exponents that reach it the `as u32` cast keeps the value.
- `get_mut`, `get_typed` and `get_val_typed_from_frame` are not separate members. `get_mut` reads the same slot as `Memory.Stack.GetRef`. The typed reads appear as the implicit casts inside the built-in calls.
- The plain accessors `FuncArgs::to_vec`/`get_arglist` and `FuncSignature::clone`/`get_output_type` are fields of the datatypes, not members.
- The `expr_count` limit of `organize_secondary_expression_list` has no counterpart. `Organize.TransitionLeavesNoIntermediateOperand` shows that the state it guards against cannot arise.
- `HashMap` iteration order is unspecified in Rust, and the model does not fix one. `Context.Context.GetVarnames` states its names up to order, and the namespace table of `parse_namespace` is only used as a lookup.
- `print_vartable` and `print_symbols` only write to the log and are not modelled.
- The reduced, expanded and first-order views that `optimize_ast` builds are only logged. `Ast.EightAst.OptimizeAst` computes what can fault and returns the batch. The views themselves are modelled as functions in `Relations`.
- The `Relations` functions take their input by value. The in-place draining of the input vectors is not modelled.
- `Whitespace.CodeChunk`: `newlines` is an unbounded count, not the `i8` of the source, so it does not wrap past 127 line feeds in one chunk. The same holds for the line number built from these counts (next line).
- `Whitespace.CodeWhitespace.GetLineNoFromIndex`: sums the counts as an unbounded integer rather than the `i8` it returns, so it does not wrap; its `requires index <= |snippets|` stands for the index panic past the end. Its only caller builds a panic message.
- `Whitespace.CodeWhitespace.Get`: running off the end of the chunks, where the source panics on the index, returns `None`.
- `Context.Context.Increment`, `Context.Context.BackToLinestart`: the out-of-bounds panic on a cursor already past the last symbol is a `requires` clause. The parser never calls them there.
- `Util.SliceStr`: the combinations of bounds on which Rust's slice panics are excluded by `requires` rather than modelled as errors.
- Unicode is not modelled. Input is ASCII, one character per byte. So `\w` in `is_varname_valid` is `[A-Za-z0-9_]`, and byte indices are character indices.
- Concurrency is not modelled: the master/slave dispatch and the thread pool's threads. A `ThreadPool` value only records its thread count.
