/** The symbol catalogue of the tokenizer (common/tokenizing/symbols.rs):
    the fixed symbols with their text and categories, the category map, and
    the longest-first ordering. */
module Symbols {
  import opened Seqs

  /** `SymbolType`: the categories a fixed symbol may belong to. */
  datatype SymbolType =
    | Operator | Assign | Whitespace | Newline | Accessor
    | Keyword | Bracket | Delimiter | Comment | StringQuote

  /** `Symbols`: a run of ordinary characters, the body of a quoted string,
      or one of the fixed symbols of the catalogue. */
  datatype Symbol =
    | LiteralSymb(payload: string)
    | StringLiteral(payload: string)
    | Add | Sub | Exponent | Multiply | Divide | Modulus
    | Equal | EqualityCheck
    | ClassAccessor | ValueAccessor
    | Let
    | Semicolon | Comma
    | ParenOpen | ParenClose | BracketOpen | BracketClose
    | Quote
    | NewLine | LineReturn | Space | WindowsNewLine
    | SingleComment | MultiCommentStart | MultiCommentEnd
  {
    predicate IsFixed() { !LiteralSymb? && !StringLiteral? }
  }

  /** `get_all`: every fixed symbol, in catalogue order. */
  const All: seq<Symbol> := [
    Add, Sub, Exponent, Multiply, Divide, Modulus,
    Equal, EqualityCheck,
    ClassAccessor, ValueAccessor,
    Let,
    Semicolon, Comma,
    ParenOpen, ParenClose, BracketOpen, BracketClose,
    Quote,
    NewLine, LineReturn, Space, WindowsNewLine,
    SingleComment, MultiCommentStart, MultiCommentEnd
  ]

  /** `to_str`: the payload of a literal or string literal, otherwise the
      symbol's catalogue text. */
  function Text(sym: Symbol): string {
    match sym
    case LiteralSymb(s) => s
    case StringLiteral(s) => s
    case Add => "+"
    case Sub => "-"
    case Exponent => "**"
    case Multiply => "*"
    case Divide => "/"
    case Modulus => "%"
    case Equal => "="
    case EqualityCheck => "=="
    case ClassAccessor => "::"
    case ValueAccessor => "."
    case Let => "let"
    case Semicolon => ";"
    case Comma => ","
    case ParenOpen => "("
    case ParenClose => ")"
    case BracketOpen => "["
    case BracketClose => "]"
    case Quote => "\""
    case NewLine => "\n"
    case LineReturn => "\r"
    case Space => " "
    case WindowsNewLine => "\r\n"
    case SingleComment => "//"
    case MultiCommentStart => "/*"
    case MultiCommentEnd => "*/"
  }

  /** `len`: the length of the symbol's text (see `LenIsTextLength`). */
  function Len(sym: Symbol): nat {
    match sym
    case LiteralSymb(s) => |s|
    case StringLiteral(s) => |s|
    case Exponent => 2
    case EqualityCheck => 2
    case ClassAccessor => 2
    case Let => 3
    case WindowsNewLine => 2
    case SingleComment => 2
    case MultiCommentStart => 2
    case MultiCommentEnd => 2
    case _ => 1
  }

  /** `len` is the length of `to_str`. */
  lemma LenIsTextLength(sym: Symbol)
    ensures Len(sym) == |Text(sym)|
  {
  }

  /** The categories the catalogue lists for a symbol (none for the payload
      variants, which are not in the catalogue). */
  function Categories(sym: Symbol): seq<SymbolType> {
    match sym
    case LiteralSymb(_) => []
    case StringLiteral(_) => []
    case Add => [Operator]
    case Sub => [Operator]
    case Exponent => [Operator]
    case Multiply => [Operator]
    case Divide => [Operator]
    case Modulus => [Operator]
    case Equal => [Assign]
    case EqualityCheck => [Operator]
    case ClassAccessor => [Accessor]
    case ValueAccessor => [Accessor]
    case Let => [Keyword]
    case Semicolon => [Delimiter]
    case Comma => [Delimiter]
    case ParenOpen => [Bracket]
    case ParenClose => [Bracket]
    case BracketOpen => [Bracket]
    case BracketClose => [Bracket]
    case Quote => [StringQuote]
    case NewLine => [Whitespace, Newline]
    case LineReturn => [Whitespace, Newline]
    case Space => [Whitespace]
    case WindowsNewLine => [Whitespace, Newline]
    case SingleComment => [Comment]
    case MultiCommentStart => [Comment]
    case MultiCommentEnd => [Comment]
  }

  predicate InCategory(sym: Symbol, typ: SymbolType) { typ in Categories(sym) }

  /** Membership of the Whitespace category, spelled out by constructor
      (`WhitespaceMembers` shows it is the category). */
  predicate IsWhitespace(sym: Symbol) {
    sym.NewLine? || sym.LineReturn? || sym.Space? || sym.WindowsNewLine?
  }

  /** Membership of the Newline category, spelled out by constructor
      (`NewlineMembers` shows it is the category). */
  predicate IsNewline(sym: Symbol) {
    sym.NewLine? || sym.LineReturn? || sym.WindowsNewLine?
  }

  /** The symbols of `syms` that belong to category `typ`, in order. */
  function OfType(syms: seq<Symbol>, typ: SymbolType): (r: seq<Symbol>)
    ensures |r| <= |syms|
  {
    if |syms| == 0 then []
    else OfType(syms[..|syms| - 1], typ)
         + (if InCategory(syms[|syms| - 1], typ) then [syms[|syms| - 1]] else [])
  }

  lemma OfTypeSnoc(syms: seq<Symbol>, sym: Symbol, typ: SymbolType)
    ensures OfType(syms + [sym], typ) == OfType(syms, typ) + (if InCategory(sym, typ) then [sym] else [])
  {
    assert (syms + [sym])[..|syms|] == syms;
  }

  /** `OfType` keeps exactly the members of the category. */
  lemma {:induction false} OfTypeMembers(syms: seq<Symbol>, typ: SymbolType, x: Symbol)
    ensures x in OfType(syms, typ) <==> x in syms && InCategory(x, typ)
  {
    if |syms| > 0 {
      OfTypeMembers(syms[..|syms| - 1], typ, x);
      assert syms == syms[..|syms| - 1] + [syms[|syms| - 1]];
    }
  }

  /** Every category is used by some symbol of the catalogue. */
  lemma EveryCategoryUsed(typ: SymbolType)
    ensures |OfType(All, typ)| > 0
  {
    var i: nat := match typ
      case Operator => 0
      case Assign => 6
      case Whitespace => 20
      case Newline => 18
      case Accessor => 8
      case Keyword => 10
      case Bracket => 13
      case Delimiter => 11
      case Comment => 22
      case StringQuote => 17;
    var sym := All[i];
    assert InCategory(sym, typ);
    assert sym in All by { assert All[i] == sym; }
    OfTypeMembers(All, typ, sym);
  }

  /** No symbol lists a category twice. */
  lemma CategoriesDistinct(sym: Symbol)
    ensures forall i, j :: 0 <= i < j < |Categories(sym)| ==> Categories(sym)[i] != Categories(sym)[j]
  {
  }

  /** The category map built from `syms`: each category that some symbol of
      `syms` belongs to, mapped to those symbols in order. */
  method BuildCategoryMap(syms: seq<Symbol>) returns (h: map<SymbolType, seq<Symbol>>)
    ensures forall typ :: typ in h <==> |OfType(syms, typ)| > 0
    ensures forall typ :: typ in h ==> h[typ] == OfType(syms, typ)
  {
    h := map[];
    var k := 0;
    while k < |syms|
      invariant 0 <= k <= |syms|
      invariant forall typ :: typ in h <==> |OfType(syms[..k], typ)| > 0
      invariant forall typ :: typ in h ==> h[typ] == OfType(syms[..k], typ)
    {
      var sym := syms[k];
      CategoriesDistinct(sym);
      ghost var before := h;
      h := PushToCategories(h, sym, Categories(sym));
      forall typ
        ensures OfType(syms[..k + 1], typ) == OfType(syms[..k], typ) + (if InCategory(sym, typ) then [sym] else [])
      {
        assert syms[..k + 1] == syms[..k] + [sym];
        OfTypeSnoc(syms[..k], sym, typ);
      }
      k := k + 1;
    }
    assert syms[..k] == syms;
  }

  /** The inner loop of `get_symbol_hashmap`: appends `sym` to the entry of
      each of its categories, creating the entry when it is missing. */
  method PushToCategories(h0: map<SymbolType, seq<Symbol>>, sym: Symbol, cats: seq<SymbolType>)
    returns (h: map<SymbolType, seq<Symbol>>)
    requires forall i, j :: 0 <= i < j < |cats| ==> cats[i] != cats[j]
    ensures forall typ :: typ in h <==> typ in h0 || typ in cats
    ensures forall typ :: typ in cats ==> h[typ] == (if typ in h0 then h0[typ] else []) + [sym]
    ensures forall typ :: typ in h0 && typ !in cats ==> h[typ] == h0[typ]
  {
    h := h0;
    var idx := 0;
    while idx < |cats|
      invariant 0 <= idx <= |cats|
      invariant forall typ :: typ in h <==> typ in h0 || typ in cats[..idx]
      invariant forall typ :: typ in cats[..idx] ==> h[typ] == (if typ in h0 then h0[typ] else []) + [sym]
      invariant forall typ :: typ in h0 && typ !in cats[..idx] ==> h[typ] == h0[typ]
    {
      var el := cats[idx];
      assert el !in cats[..idx];
      if el in h {
        var ops := h[el];
        h := h - {el};
        h := h[el := ops + [sym]];
      } else {
        h := h[el := [sym]];
      }
      assert cats[..idx + 1] == cats[..idx] + [el];
      idx := idx + 1;
    }
    assert cats[..idx] == cats;
  }

  /** `get_symbol_hashmap`: for every category, the symbols that belong to it,
      in catalogue order. */
  method GetSymbolHashmap() returns (h: map<SymbolType, seq<Symbol>>)
    ensures forall typ :: typ in h && h[typ] == OfType(All, typ)
  {
    h := BuildCategoryMap(All);
    forall typ ensures typ in h {
      EveryCategoryUsed(typ);
    }
  }

  /** `get_symbols_by_type`: the symbols of a category, in catalogue order. */
  method GetSymbolsByType(typ: SymbolType) returns (r: seq<Symbol>)
    ensures r == OfType(All, typ)
  {
    var h := GetSymbolHashmap();
    r := h[typ];
  }

  /** `to_strs`: the texts of the symbols of a category. */
  method ToStrs(typ: SymbolType) returns (v: seq<string>)
    ensures |v| == |OfType(All, typ)|
    ensures forall i :: 0 <= i < |v| ==> v[i] == Text(OfType(All, typ)[i])
  {
    v := [];
    var sv := GetSymbolsByType(typ);
    for i := 0 to |sv|
      invariant |v| == i
      invariant forall j :: 0 <= j < i ==> v[j] == Text(sv[j])
    {
      v := v + [Text(sv[i])];
    }
  }

  /** The position of the first symbol of maximal length, as found by a
      left-to-right scan that only replaces its candidate on a strictly longer
      symbol. */
  function LongestIndex(syms: seq<Symbol>): (k: nat)
    requires |syms| > 0
    ensures k < |syms|
    ensures forall j :: 0 <= j < |syms| ==> Len(syms[j]) <= Len(syms[k])
    ensures forall j :: 0 <= j < k ==> Len(syms[j]) < Len(syms[k])
  {
    if |syms| == 1 then 0
    else
      var k := LongestIndex(syms[..|syms| - 1]);
      if Len(syms[|syms| - 1]) > Len(syms[k]) then |syms| - 1 else k
  }

  /** The left-to-right scan of `sort_by_longest` and of the tokenizer:
      `cur_biggest` starts at 0 and the candidate moves only on a strictly
      longer symbol. */
  method FindLongest(symbs: seq<Symbol>) returns (foundIdx: nat)
    requires |symbs| > 0
    ensures foundIdx == LongestIndex(symbs)
  {
    var curBiggest := 0;
    foundIdx := 0;
    var curIdx := 0;
    while curIdx < |symbs|
      invariant 0 <= curIdx <= |symbs|
      invariant curIdx == 0 ==> foundIdx == 0 && curBiggest == 0
      invariant curIdx > 0 ==>
        foundIdx == LongestIndex(symbs[..curIdx]) && curBiggest == Len(symbs[foundIdx])
    {
      assert symbs[..curIdx + 1][..curIdx] == symbs[..curIdx];
      var symbLen := Len(symbs[curIdx]);
      if symbLen > curBiggest {
        curBiggest := symbLen;
        foundIdx := curIdx;
      }
      curIdx := curIdx + 1;
    }
    assert symbs[..curIdx] == symbs;
  }

  /** The ordering `sort_by_longest` produces: repeatedly take out the first
      longest remaining symbol. */
  function LongestFirst(syms: seq<Symbol>): (r: seq<Symbol>)
    decreases |syms|
  {
    if |syms| == 0 then []
    else
      var k := LongestIndex(syms);
      [syms[k]] + LongestFirst(syms[..k] + syms[k + 1..])
  }

  /** `sort_by_longest`: sorts a list of symbols longest first. */
  method SortByLongest(symbs0: seq<Symbol>) returns (s: seq<Symbol>)
    ensures s == LongestFirst(symbs0)
  {
    var symbs := symbs0;
    s := [];
    var processed := 0;
    var symLen := |symbs|;
    while processed < symLen
      invariant 0 <= processed <= symLen
      invariant |symbs| == symLen - processed
      invariant s + LongestFirst(symbs) == LongestFirst(symbs0)
    {
      var foundIdx := FindLongest(symbs);
      var sym := symbs[foundIdx];
      SortStep(s, symbs, foundIdx);
      symbs := symbs[..foundIdx] + symbs[foundIdx + 1..];
      s := s + [sym];
      processed := processed + 1;
    }
  }

  /** One round of `sort_by_longest`: moving the first longest symbol to
      the output keeps the output followed by the ordering of the rest. */
  lemma SortStep(s: seq<Symbol>, symbs: seq<Symbol>, k: nat)
    requires |symbs| > 0 && k == LongestIndex(symbs)
    ensures s + LongestFirst(symbs) == s + [symbs[k]] + LongestFirst(symbs[..k] + symbs[k + 1..])
  {
    Regroup(s, [symbs[k]], LongestFirst(symbs[..k] + symbs[k + 1..]));
  }

  /** The symbols of `s` whose length is `n`, in order. */
  function OfLength(s: seq<Symbol>, n: nat): (r: seq<Symbol>) {
    if |s| == 0 then []
    else (if Len(s[0]) == n then [s[0]] else []) + OfLength(s[1..], n)
  }

  lemma {:induction false} OfLengthAppend(a: seq<Symbol>, b: seq<Symbol>, n: nat)
    ensures OfLength(a + b, n) == OfLength(a, n) + OfLength(b, n)
  {
    if |a| > 0 {
      assert (a + b)[1..] == a[1..] + b;
      OfLengthAppend(a[1..], b, n);
    } else {
      assert a + b == b;
    }
  }

  lemma {:induction false} OfLengthShorter(a: seq<Symbol>, n: nat)
    requires forall j :: 0 <= j < |a| ==> Len(a[j]) < n
    ensures OfLength(a, n) == []
  {
    if |a| > 0 { OfLengthShorter(a[1..], n); }
  }

  lemma SplitAt(s: seq<Symbol>, k: nat)
    requires k < |s|
    ensures s == s[..k] + [s[k]] + s[k + 1..]
  {
  }

  lemma PermutesStep(before: seq<Symbol>, x: Symbol, after: seq<Symbol>, sorted: seq<Symbol>)
    requires multiset(sorted) == multiset(before + after)
    ensures multiset([x] + sorted) == multiset(before + [x] + after)
  {
  }

  /** `sort_by_longest` reorders its input: the result holds the same symbols
      with the same multiplicities. */
  lemma {:induction false} LongestFirstPermutes(syms: seq<Symbol>)
    ensures multiset(LongestFirst(syms)) == multiset(syms)
    decreases |syms|
  {
    if |syms| > 0 {
      var k := LongestIndex(syms);
      var rest := syms[..k] + syms[k + 1..];
      LongestFirstPermutes(rest);
      PermutesStep(syms[..k], syms[k], syms[k + 1..], LongestFirst(rest));
      SplitAt(syms, k);
    }
  }

  /** `sort_by_longest` puts longer symbols first. */
  lemma {:induction false} LongestFirstSorted(syms: seq<Symbol>)
    ensures |LongestFirst(syms)| == |syms|
    ensures forall i, j :: 0 <= i < j < |syms| ==>
      Len(LongestFirst(syms)[i]) >= Len(LongestFirst(syms)[j])
    decreases |syms|
  {
    if |syms| > 0 {
      var k := LongestIndex(syms);
      var rest := syms[..k] + syms[k + 1..];
      LongestFirstSorted(rest);
      LongestFirstPermutes(rest);
      var r := LongestFirst(syms);
      assert r == [syms[k]] + LongestFirst(rest);
      forall j | 1 <= j < |syms| ensures Len(r[0]) >= Len(r[j]) {
        assert r[j] in multiset(LongestFirst(rest));
        assert r[j] in rest;
      }
    }
  }

  lemma OfLengthCons(x: Symbol, s: seq<Symbol>, n: nat)
    ensures OfLength([x] + s, n) == if Len(x) == n then [x] + OfLength(s, n) else OfLength(s, n)
  {
    assert ([x] + s)[1..] == s;
  }

  /** Taking out `x`, which is longer than every symbol before it, and
      putting it in front keeps the order of each length class. */
  lemma StableStep(before: seq<Symbol>, x: Symbol, after: seq<Symbol>, sorted: seq<Symbol>, n: nat)
    requires OfLength(sorted, n) == OfLength(before + after, n)
    requires forall j :: 0 <= j < |before| ==> Len(before[j]) < Len(x)
    ensures OfLength([x] + sorted, n) == OfLength(before + [x] + after, n)
  {
    var ob, oa := OfLength(before, n), OfLength(after, n);
    var front: seq<Symbol> := if Len(x) == n then [x] else [];
    OfLengthCons(x, sorted, n);
    OfLengthCons(x, after, n);
    OfLengthAppend(before, after, n);
    OfLengthAppend(before, [x] + after, n);
    Regroup(before, [x], after);
    if Len(x) == n {
      OfLengthShorter(before, n);
    }
    MoveToFront(front, ob, oa);
  }

  /** `sort_by_longest` is stable: symbols of equal length keep their
      relative order. */
  lemma {:induction false} LongestFirstStable(syms: seq<Symbol>, n: nat)
    ensures OfLength(LongestFirst(syms), n) == OfLength(syms, n)
    decreases |syms|
  {
    if |syms| > 0 {
      var k := LongestIndex(syms);
      var before, after := syms[..k], syms[k + 1..];
      LongestFirstStable(before + after, n);
      SplitAt(syms, k);
      StableStep(before, syms[k], after, LongestFirst(before + after), n);
    }
  }

  /** Every fixed symbol has a non-empty text, and no two fixed symbols share
      a text. */
  lemma TextsDistinct(a: Symbol, b: Symbol)
    requires a.IsFixed() && b.IsFixed()
    ensures |Text(a)| > 0
    ensures Text(a) == Text(b) ==> a == b
  {
  }

  /** The Whitespace category is exactly the two newline characters, the
      Windows newline and the space; a tab is no symbol at all. */
  lemma WhitespaceMembers(sym: Symbol)
    ensures InCategory(sym, Whitespace) <==> IsWhitespace(sym)
    ensures IsWhitespace(sym) <==> sym == NewLine || sym == LineReturn || sym == Space || sym == WindowsNewLine
    ensures sym.IsFixed() ==> Text(sym) != "\t"
  {
  }

  /** The Newline category is the whitespace symbols other than the space. */
  lemma NewlineMembers(sym: Symbol)
    ensures InCategory(sym, Newline) <==> IsNewline(sym)
    ensures IsNewline(sym) <==> sym == NewLine || sym == LineReturn || sym == WindowsNewLine
    ensures IsNewline(sym) ==> IsWhitespace(sym)
  {
  }

  /** Fixed texts are one to three characters long; `let` is the only one of
      three, and the quote is the only one that starts with a quote. */
  lemma FixedShape(x: Symbol)
    requires x.IsFixed()
    ensures 1 <= Len(x) == |Text(x)| <= 3
    ensures Len(x) == 3 ==> x == Let
    ensures Text(x)[0] == '"' ==> x == Quote
  {
  }

  /** The list `get_symbols_by_type(typ)` holds a symbol exactly when the
      symbol belongs to category `typ`: comparing against that list is the
      same as asking for the category. */
  lemma CategoryListMembers(typ: SymbolType, x: Symbol)
    ensures x in OfType(All, typ) <==> InCategory(x, typ)
  {
    OfTypeMembers(All, typ, x);
  }
}
