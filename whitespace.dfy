/** The standalone whitespace chunker (common/tokenizing/whitespace.rs):
    source text cut into alternating runs of whitespace and non-whitespace
    characters, with a cursor over the runs and line counting. */
module Whitespace {
  import opened Wrappers
  import opened Seqs

  /** The four characters the chunker counts as whitespace. */
  predicate IsWsChar(c: char) { c == ' ' || c == '\n' || c == '\r' || c == '\t' }

  /** Every character from position `i` on is whitespace; each character is
      tested as a one-character string. */
  function AllWsFrom(s: string, i: nat): (b: bool)
    ensures b <==> forall k :: i <= k < |s| ==> IsWsChar(s[k])
    decreases |s| - i
  {
    if i >= |s| then true else IsWsChar(s[i]) && AllWsFrom(s, i + 1)
  }

  /** `check_is_whitespace`: a one-character string is compared with the
      four whitespace strings (here: its character with the four
      characters), any other string is tested character by character. The
      empty string therefore counts as whitespace. */
  function CheckIsWhitespace(s: string): (b: bool)
    ensures b <==> forall k :: 0 <= k < |s| ==> IsWsChar(s[k])
    ensures s == "" ==> b
  {
    if |s| == 1 then s[0] == ' ' || s[0] == '\n' || s[0] == '\r' || s[0] == '\t'
    else AllWsFrom(s, 0)
  }

  /** The number of line feeds in `s`. */
  function CountNewlines(s: string): nat {
    if s == [] then 0 else CountNewlines(s[..|s| - 1]) + (if s[|s| - 1] == '\n' then 1 else 0)
  }

  /** Counting line feeds is counting the occurrences of `'\n'`, and it adds
      up over concatenation. */
  lemma {:induction false} CountNewlinesAdds(a: string, b: string)
    ensures CountNewlines(a + b) == CountNewlines(a) + CountNewlines(b)
    ensures CountNewlines(b) == multiset(b)['\n']
    decreases |b|
  {
    if b != [] {
      var b' := b[..|b| - 1];
      assert (a + b)[..|a + b| - 1] == a + b';
      assert b == b' + [b[|b| - 1]];
      CountNewlinesAdds(a, b');
    } else {
      assert a + b == a;
    }
  }

  /** `CodeChunk`: a run of text, whether it is whitespace, and how many
      line feeds it holds. */
  datatype CodeChunk = CodeChunk(strData: string, isWhitespace: bool, newlines: int)

  /** A chunk as `CodeChunk::new` builds it from its text and flag, with a
      flag that agrees with `check_is_whitespace` as `CodeWhitespace::new`
      and `split_current` choose it. */
  predicate Chunked(c: CodeChunk) {
    c.isWhitespace == CheckIsWhitespace(c.strData) && c.newlines == CountNewlines(c.strData)
  }

  /** `CodeChunk::new`: counts the line feeds of `data`. */
  method NewCodeChunk(data: string, isWhitespace: bool) returns (c: CodeChunk)
    ensures c.strData == data && c.isWhitespace == isWhitespace
    ensures c.newlines == multiset(data)['\n']
  {
    var count := 0;
    for k := 0 to |data|
      invariant count == CountNewlines(data[..k])
    {
      assert data[..k + 1][..k] == data[..k];
      if data[k] == '\n' {
        count := count + 1;
      }
    }
    assert data[..|data|] == data;
    CountNewlinesAdds([], data);
    c := CodeChunk(data, isWhitespace, count);
  }

  /** The texts of `chunks` concatenated. */
  function Concat(chunks: seq<CodeChunk>): string {
    if chunks == [] then "" else Concat(chunks[..|chunks| - 1]) + chunks[|chunks| - 1].strData
  }

  /** The sum of the `newlines` counts of `chunks`. */
  function NewlinesIn(chunks: seq<CodeChunk>): int {
    if chunks == [] then 0 else NewlinesIn(chunks[..|chunks| - 1]) + chunks[|chunks| - 1].newlines
  }

  /** For well-formed chunks, the summed counts are the line feeds of the
      concatenated text. */
  lemma {:induction false} NewlinesInConcat(chunks: seq<CodeChunk>)
    requires forall k :: 0 <= k < |chunks| ==> Chunked(chunks[k])
    ensures NewlinesIn(chunks) == CountNewlines(Concat(chunks))
    decreases |chunks|
  {
    if chunks != [] {
      var init := chunks[..|chunks| - 1];
      NewlinesInConcat(init);
      CountNewlinesAdds(Concat(init), chunks[|chunks| - 1].strData);
    }
  }

  /** Concatenation of texts distributes over splitting the chunk list. */
  lemma {:induction false} ConcatAppend(a: seq<CodeChunk>, b: seq<CodeChunk>)
    ensures Concat(a + b) == Concat(a) + Concat(b)
    decreases |b|
  {
    if b != [] {
      var b' := b[..|b| - 1];
      assert (a + b)[..|a + b| - 1] == a + b';
      ConcatAppend(a, b');
    } else {
      assert a + b == a;
    }
  }

  /** The loop of `CodeWhitespace::new`: cuts `snippet` where it switches
      between whitespace and other characters (a snippet starting with
      whitespace gets an empty first chunk flagged as whitespace). The
      chunks spell the snippet back and each flag agrees with
      `check_is_whitespace` of its text. */
  method SplitChunks(snippet: string) returns (s: seq<CodeChunk>)
    ensures |s| >= 1
    ensures Concat(s) == snippet
    ensures forall k :: 0 <= k < |s| ==> Chunked(s[k])
  {
    s := [];
    var index := 0;
    var isWhitespace := false;
    var startIndex := index;
    while index < |snippet|
      invariant startIndex <= index <= |snippet|
      invariant Concat(s) == snippet[..startIndex]
      invariant forall k :: 0 <= k < |s| ==> Chunked(s[k])
      invariant isWhitespace ==> forall i :: startIndex <= i < index ==> IsWsChar(snippet[i])
      invariant !isWhitespace ==> forall i :: startIndex <= i < index ==> !IsWsChar(snippet[i])
    {
      var ch := snippet[index..index + 1];
      if CheckIsWhitespace(ch) {
        if !isWhitespace {
          isWhitespace := true;
          var sn := snippet[startIndex..index];
          var ws := false;
          if sn == "" {
            ws := true;
          }
          s := PushChunk(s, snippet, startIndex, index, ws);
          startIndex := index;
        }
      } else {
        if isWhitespace {
          isWhitespace := false;
          s := PushChunk(s, snippet, startIndex, index, true);
          startIndex := index;
        }
      }
      index := index + 1;
    }
    s := PushChunk(s, snippet, startIndex, index, CheckIsWhitespace(snippet[startIndex..index]));
    assert snippet[..index] == snippet;
  }

  /** One `s.push(CodeChunk::new(...))` of `SplitChunks`: appends the chunk
      for `snippet[lo..hi]`. */
  method PushChunk(s: seq<CodeChunk>, snippet: string, lo: nat, hi: nat, ws: bool)
    returns (s': seq<CodeChunk>)
    requires lo <= hi <= |snippet|
    requires Concat(s) == snippet[..lo]
    requires forall k :: 0 <= k < |s| ==> Chunked(s[k])
    requires ws == CheckIsWhitespace(snippet[lo..hi])
    ensures Concat(s') == snippet[..hi]
    ensures |s'| == |s| + 1
    ensures forall k :: 0 <= k < |s'| ==> Chunked(s'[k])
  {
    var chunk := NewCodeChunk(snippet[lo..hi], ws);
    CountNewlinesAdds([], snippet[lo..hi]);
    assert Chunked(chunk);
    s' := s + [chunk];
    ConcatSnoc(s, chunk, snippet, lo, hi);
    forall k | 0 <= k < |s'|
      ensures Chunked(s'[k])
    {
      if k < |s| {
        assert s'[k] == s[k];
      }
    }
  }

  /** Appending the chunk for `snippet[lo..hi]` to chunks that spell
      `snippet[..lo]` spells `snippet[..hi]`. */
  lemma ConcatSnoc(s: seq<CodeChunk>, chunk: CodeChunk, snippet: string, lo: nat, hi: nat)
    requires lo <= hi <= |snippet| && Concat(s) == snippet[..lo] && chunk.strData == snippet[lo..hi]
    ensures Concat(s + [chunk]) == snippet[..hi]
  {
    var t := s + [chunk];
    assert t[..|t| - 1] == s;
    assert snippet[..lo] + snippet[lo..hi] == snippet[..hi];
  }

  /** `Vec::remove(i)`. */
  function Remove<T>(s: seq<T>, i: nat): (r: seq<T>)
    requires i < |s|
    ensures |r| == |s| - 1
  {
    s[..i] + s[i + 1..]
  }

  /** `Vec::insert(i, x)`. */
  function Insert<T>(s: seq<T>, i: nat, x: T): (r: seq<T>)
    requires i <= |s|
    ensures |r| == |s| + 1 && r[i] == x
  {
    s[..i] + [x] + s[i..]
  }

  /** Removing position `i` and inserting `b`, then `a`, at `i` replaces
      the element at `i` by `a`, `b`. */
  lemma RemoveInsertTwice<T>(s: seq<T>, i: nat, a: T, b: T)
    requires i < |s|
    ensures Insert(Insert(Remove(s, i), i, b), i, a) == s[..i] + [a, b] + s[i + 1..]
  {
  }

  /** The list edit of `split_current`: removes chunk `i`, then inserts
      the chunk for `s` and the chunk for `f` at `i`. */
  method SplitChunkAt(chunks: seq<CodeChunk>, i: nat, f: string, s: string) returns (r: seq<CodeChunk>)
    requires i < |chunks|
    ensures r == chunks[..i] + [CodeChunk(f, CheckIsWhitespace(f), CountNewlines(f)),
                                CodeChunk(s, CheckIsWhitespace(s), CountNewlines(s))] + chunks[i + 1..]
    ensures (forall k :: 0 <= k < |chunks| ==> Chunked(chunks[k])) ==> forall k :: 0 <= k < |r| ==> Chunked(r[k])
  {
    var second := NewCodeChunk(s, CheckIsWhitespace(s));
    var first := NewCodeChunk(f, CheckIsWhitespace(f));
    CountNewlinesAdds([], s);
    CountNewlinesAdds([], f);
    r := Remove(chunks, i);
    r := Insert(r, i, second);
    r := Insert(r, i, first);
    RemoveInsertTwice(chunks, i, first, second);
    if forall k :: 0 <= k < |chunks| ==> Chunked(chunks[k]) {
      SplitKeepsChunked(chunks, i, first, second, r);
    }
  }

  /** Is some chunk at or after `i` not whitespace? */
  predicate HasNonWsFrom(chunks: seq<CodeChunk>, i: nat) {
    exists k :: i <= k < |chunks| && !chunks[k].isWhitespace
  }

  /** The first chunk at or after `i` that is not whitespace, or `|chunks|`. */
  function FirstNonWsChunk(chunks: seq<CodeChunk>, i: nat): (r: nat)
    requires i <= |chunks|
    ensures i <= r <= |chunks|
    ensures r < |chunks| ==> !chunks[r].isWhitespace
    ensures forall k :: i <= k < r ==> chunks[k].isWhitespace
    ensures r < |chunks| <==> HasNonWsFrom(chunks, i)
    decreases |chunks| - i
  {
    if i == |chunks| then i
    else if !chunks[i].isWhitespace then i
    else FirstNonWsChunk(chunks, i + 1)
  }

  /** Where `increment_to_newline` stops from `i`: just past the first chunk
      at or after `i` holding a line feed, or at the end. */
  function AfterNewline(chunks: seq<CodeChunk>, i: nat): (r: nat)
    ensures i < |chunks| ==> i < r <= |chunks|
    ensures i >= |chunks| ==> r == i
    ensures forall k :: i <= k < r - 1 ==> chunks[k].newlines == 0
    ensures i < r < |chunks| ==> chunks[r - 1].newlines != 0
    decreases |chunks| - i
  {
    if i >= |chunks| then i
    else if chunks[i].newlines != 0 then i + 1
    else AfterNewline(chunks, i + 1)
  }

  /** `CodeWhitespace`: the chunks of a snippet and a cursor over them. */
  class CodeWhitespace {
    var curIndex: nat
    var snippets: seq<CodeChunk>

    /** Every chunk is well formed. */
    predicate Valid()
      reads this
    {
      forall k :: 0 <= k < |snippets| ==> Chunked(snippets[k])
    }

    /** `CodeWhitespace::new`: the chunks of `snippet` (see `SplitChunks`)
        with the cursor on the first. */
    constructor (snippet: string)
      ensures curIndex == 0 && |snippets| >= 1
      ensures Concat(snippets) == snippet
      ensures Valid()
    {
      var s := SplitChunks(snippet);
      curIndex := 0;
      snippets := s;
    }

    /** `newline_count`: one more than the line feeds of all chunks. */
    method NewlineCount() returns (n: int)
      requires Valid()
      ensures n == 1 + CountNewlines(Concat(snippets))
    {
      var count := 0;
      for k := 0 to |snippets|
        invariant count == NewlinesIn(snippets[..k])
      {
        assert snippets[..k + 1][..k] == snippets[..k];
        count := count + snippets[k].newlines;
      }
      assert snippets[..|snippets|] == snippets;
      NewlinesInConcat(snippets);
      n := count + 1;
    }

    /** `get_current_index`. */
    function GetCurrentIndex(): nat
      reads this
    {
      curIndex
    }

    /** `get_line_no_from_index`: the line on which chunk `index` starts,
        that is one more than the line feeds in the text before it. */
    method GetLineNoFromIndex(index: nat) returns (n: int)
      requires index <= |snippets|
      requires Valid()
      ensures n == 1 + CountNewlines(Concat(snippets[..index]))
    {
      var count := 0;
      for i := 0 to index
        invariant count == NewlinesIn(snippets[..i])
      {
        assert snippets[..i + 1][..i] == snippets[..i];
        count := count + snippets[i].newlines;
      }
      NewlinesInConcat(snippets[..index]);
      n := count + 1;
    }

    /** `get_current_line_no`. */
    method GetCurrentLineNo() returns (n: int)
      requires curIndex <= |snippets|
      requires Valid()
      ensures n == 1 + CountNewlines(Concat(snippets[..curIndex]))
    {
      n := GetLineNoFromIndex(curIndex);
    }

    /** `indexes_to_raw(start, end)`: the text of chunks `start` up to `end`
        (clamped to the chunk count); empty when `start` is past the chunks
        or `end` is before `start`. */
    method IndexesToRaw(start: nat, end: nat) returns (s: string)
      ensures start > |snippets| || end < start ==> s == ""
      ensures start <= |snippets| && start <= end ==>
                s == Concat(snippets[start..if end > |snippets| then |snippets| else end])
    {
      var e := end;
      s := "";
      if start > |snippets| || end < start {
        return "";
      }
      if end > |snippets| {
        e := |snippets|;
      }
      for i := start to e
        invariant s == Concat(snippets[start..i])
      {
        assert snippets[start..i + 1][..i - start] == snippets[start..i];
        s := s + snippets[i].strData;
      }
    }

    /** `peek_by_idx(i)`: is there a chunk at or after `i` that is not
        whitespace? */
    method PeekByIdx(i: nat) returns (b: bool)
      ensures b <==> HasNonWsFrom(snippets, i)
    {
      var idx := i;
      while idx < |snippets|
        invariant i <= idx
        invariant forall k :: i <= k < idx && k < |snippets| ==> snippets[k].isWhitespace
        decreases |snippets| - idx
      {
        if !snippets[idx].isWhitespace {
          return true;
        }
        idx := idx + 1;
      }
      return false;
    }

    /** `peek`: `peek_by_idx` at the cursor. */
    method Peek() returns (b: bool)
      ensures b <==> HasNonWsFrom(snippets, curIndex)
    {
      b := PeekByIdx(curIndex);
    }

    /** `peek_multiple(times)`: `peek_by_idx` holds at each of the `times`
        positions from the cursor on. */
    method PeekMultiple(times: int) returns (b: bool)
      ensures b <==> forall j :: curIndex <= j < curIndex + times ==> HasNonWsFrom(snippets, j)
    {
      var i := 0;
      while i < times
        invariant 0 <= i && (times >= 0 ==> i <= times)
        invariant forall j :: curIndex <= j < curIndex + i ==> HasNonWsFrom(snippets, j)
        decreases times - i
      {
        var ok := PeekByIdx(curIndex + i);
        if !ok {
          return false;
        }
        i := i + 1;
      }
      return true;
    }

    /** `get`: moves the cursor to the first chunk at or after it that is
        not whitespace and returns that chunk's text; running off the end
        is a failure (a panic in Rust). */
    method Get() returns (r: Option<string>)
      modifies this
      ensures snippets == old(snippets)
      ensures old(curIndex) <= |snippets| ==>
                r.Some? == HasNonWsFrom(snippets, old(curIndex)) &&
                (r.Some? ==> curIndex == FirstNonWsChunk(snippets, old(curIndex)) &&
                             r.value == snippets[curIndex].strData)
      ensures old(curIndex) > |snippets| ==> r.None?
    {
      while true
        invariant snippets == old(snippets)
        invariant old(curIndex) <= curIndex
        invariant old(curIndex) <= |snippets| ==>
                    curIndex <= |snippets| &&
                    FirstNonWsChunk(snippets, curIndex) == FirstNonWsChunk(snippets, old(curIndex))
        decreases |snippets| - curIndex
      {
        if curIndex >= |snippets| {
          // indexing past the last chunk
          return None;
        }
        if !snippets[curIndex].isWhitespace {
          return Some(snippets[curIndex].strData);
        }
        Increment();
      }
    }

    /** `split_current(f, s)`: when `peek` holds, the chunk under the
        cursor is replaced by a chunk for `f` followed by one for `s`;
        otherwise nothing changes. */
    method SplitCurrent(f: string, s: string)
      modifies this
      ensures curIndex == old(curIndex)
      ensures HasNonWsFrom(old(snippets), curIndex) ==>
                |snippets| == |old(snippets)| + 1 &&
                snippets == old(snippets)[..curIndex] +
                            [CodeChunk(f, CheckIsWhitespace(f), CountNewlines(f)),
                             CodeChunk(s, CheckIsWhitespace(s), CountNewlines(s))] +
                            old(snippets)[curIndex + 1..]
      ensures !HasNonWsFrom(old(snippets), curIndex) ==> snippets == old(snippets)
      ensures old(Valid()) ==> Valid()
    {
      var p := Peek();
      if p {
        assert FirstNonWsChunk(snippets, curIndex) < |snippets|;
        snippets := SplitChunkAt(snippets, curIndex, f, s);
      }
    }

    /** `increment`. */
    method Increment()
      modifies this
      ensures curIndex == old(curIndex) + 1 && snippets == old(snippets)
    {
      curIndex := curIndex + 1;
    }

    /** `decrement`: the cursor must not be on the first chunk (`usize`
        underflow). */
    method Decrement()
      requires curIndex > 0
      modifies this
      ensures curIndex == old(curIndex) - 1 && snippets == old(snippets)
    {
      curIndex := curIndex - 1;
    }

    /** `increment_to_newline`: see `AfterNewline`. */
    method IncrementToNewline()
      modifies this
      ensures curIndex == AfterNewline(snippets, old(curIndex))
      ensures snippets == old(snippets)
    {
      while curIndex < |snippets|
        invariant snippets == old(snippets)
        invariant AfterNewline(snippets, curIndex) == AfterNewline(snippets, old(curIndex))
        decreases |snippets| - curIndex
      {
        if snippets[curIndex].newlines != 0 {
          Increment();
          break;
        } else {
          Increment();
        }
      }
    }
  }

  /** Splitting the chunk under the cursor into two parts of its own text
      keeps the text of the whole snippet. */
  lemma SplitKeepsText(chunks: seq<CodeChunk>, i: nat, f: CodeChunk, s: CodeChunk)
    requires i < |chunks| && f.strData + s.strData == chunks[i].strData
    ensures Concat(chunks[..i] + [f, s] + chunks[i + 1..]) == Concat(chunks)
  {
    SplitAround(chunks, i, i + 1);
    assert chunks[i..i + 1] == [chunks[i]];
    ConcatPair(f, s);
    ConcatPair(chunks[i], f);
    ConcatSpliceSame(chunks[..i], [f, s], [chunks[i]], chunks[i + 1..]);
  }

  /** Replacing a middle part by chunks of the same text keeps the text of
      the whole list. */
  lemma ConcatSpliceSame(a: seq<CodeChunk>, m1: seq<CodeChunk>, m2: seq<CodeChunk>, b: seq<CodeChunk>)
    requires Concat(m1) == Concat(m2)
    ensures Concat(a + m1 + b) == Concat(a + m2 + b)
  {
    ConcatAppend(a + m1, b);
    ConcatAppend(a, m1);
    ConcatAppend(a + m2, b);
    ConcatAppend(a, m2);
  }

  /** The text of a two-chunk list. */
  lemma ConcatPair(f: CodeChunk, s: CodeChunk)
    ensures Concat([f, s]) == f.strData + s.strData
    ensures Concat([f]) == f.strData
  {
    var one, two := [f], [f, s];
    assert one[..0] == [];
    assert Concat(one) == Concat([]) + f.strData;
    assert "" + f.strData == f.strData;
    assert two[..1] == one;
    assert Concat(two) == Concat(one) + s.strData;
  }

  /** Replacing a well-formed chunk by two well-formed chunks keeps every
      chunk well formed. */
  lemma SplitKeepsChunked(chunks: seq<CodeChunk>, i: nat, a: CodeChunk, b: CodeChunk, r: seq<CodeChunk>)
    requires i < |chunks| && r == chunks[..i] + [a, b] + chunks[i + 1..]
    requires forall k :: 0 <= k < |chunks| ==> Chunked(chunks[k])
    requires Chunked(a) && Chunked(b)
    ensures forall k :: 0 <= k < |r| ==> Chunked(r[k])
  {
    forall k | 0 <= k < |r|
      ensures Chunked(r[k])
    {
      if k < i {
        assert r[k] == chunks[k];
      } else if k == i {
        assert r[k] == a;
      } else if k == i + 1 {
        assert r[k] == b;
      } else {
        assert r[k] == chunks[k - 1];
      }
    }
  }

  /** `check_is_whitespace` on sample strings: the empty string counts,
      a word does not, a run of space, tab and line feed does. */
  lemma ChunkExample()
    ensures CheckIsWhitespace("") && !CheckIsWhitespace("ab") && CheckIsWhitespace(" \t\n")
  {
    assert !IsWsChar("ab"[0]);
  }
}
