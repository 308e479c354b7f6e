/** The relation entries of `ast.rs`: for every expression, the variable
    names it creates and references, nested by sub-expression, and the
    flattening (`reduce`), expansion (`expand`) and first-order filter that
    `optimize_ast` computes over them. */
module Relations {
  import opened Wrappers

  /** `RelationEntry`: names created at this entry, names referenced at this
      entry, and the entries of sub-expressions. */
  datatype RelationEntry = RelationEntry(create: seq<string>, reference: seq<string>, entries: seq<RelationEntry>)

  /** `RelationEntry::is_empty`. */
  predicate IsEmpty(e: RelationEntry) {
    |e.create| == 0 && |e.entries| == 0 && |e.reference| == 0
  }

  /** The sub-entries `RelationEntry::new` keeps: the non-empty ones, in
      their original order. */
  function NonEmpty(es: seq<RelationEntry>): (r: seq<RelationEntry>)
    ensures |r| <= |es|
  {
    if es == [] then []
    else NonEmpty(es[..|es| - 1]) + (if IsEmpty(es[|es| - 1]) then [] else [es[|es| - 1]])
  }

  /** Pruning keeps exactly the non-empty entries. */
  lemma {:induction false} NonEmptyMembers(es: seq<RelationEntry>)
    ensures forall x :: x in NonEmpty(es) <==> x in es && !IsEmpty(x)
    decreases |es|
  {
    if es != [] {
      NonEmptyMembers(es[..|es| - 1]);
      assert es == es[..|es| - 1] + [es[|es| - 1]];
    }
  }

  /** Pruning distributes over concatenation, so it keeps the order of the
      entries it keeps. */
  lemma {:induction false} NonEmptyAppend(a: seq<RelationEntry>, b: seq<RelationEntry>)
    ensures NonEmpty(a + b) == NonEmpty(a) + NonEmpty(b)
    decreases |b|
  {
    if b == [] {
      assert a + b == a;
    } else {
      var b' := b[..|b| - 1];
      assert (a + b)[..|a + b| - 1] == a + b';
      NonEmptyAppend(a, b');
    }
  }

  /** Pruning twice is pruning once, and a list without empty entries is
      kept as it is. */
  lemma {:induction false} NonEmptyKeepsNonEmpty(es: seq<RelationEntry>)
    requires forall x :: x in es ==> !IsEmpty(x)
    ensures NonEmpty(es) == es
    decreases |es|
  {
    if es != [] {
      assert es == es[..|es| - 1] + [es[|es| - 1]];
      NonEmptyKeepsNonEmpty(es[..|es| - 1]);
    }
  }

  /** `RelationEntry::new` as a value. */
  function New(create: seq<string>, reference: seq<string>, entrs: seq<RelationEntry>): (r: RelationEntry)
    ensures r.create == create && r.reference == reference
    ensures forall x :: x in r.entries ==> !IsEmpty(x)
    ensures IsEmpty(r) <==> create == [] && reference == [] && NonEmpty(entrs) == []
  {
    NonEmptyMembers(entrs);
    RelationEntry(create, reference, NonEmpty(entrs))
  }

  /** `RelationEntry::new`: the loop that copies over the non-empty
      sub-entries. */
  method NewRelationEntry(create: seq<string>, reference: seq<string>, entrs: seq<RelationEntry>)
    returns (r: RelationEntry)
    ensures r == New(create, reference, entrs)
  {
    var entries: seq<RelationEntry> := [];
    var k := 0;
    while k < |entrs|
      invariant k <= |entrs|
      invariant entries == NonEmpty(entrs[..k])
    {
      assert entrs[..k + 1][..k] == entrs[..k];
      if |entrs[k].entries| > 0 || |entrs[k].create| > 0 || |entrs[k].reference| > 0 {
        entries := entries + [entrs[k]];
      }
      k := k + 1;
    }
    assert entrs[..k] == entrs;
    r := RelationEntry(create, reference, entries);
  }

  /** Every name created anywhere in the entry, own names first, then each
      sub-entry's in order. */
  function Creates(e: RelationEntry): seq<string>
    decreases e, 1
  {
    e.create + CreatesAll(e.entries)
  }

  function CreatesAll(es: seq<RelationEntry>): seq<string>
    decreases es, 0
  {
    if es == [] then [] else CreatesAll(es[..|es| - 1]) + Creates(es[|es| - 1])
  }

  /** Every name referenced anywhere in the entry, in the same order. */
  function References(e: RelationEntry): seq<string>
    decreases e, 1
  {
    e.reference + ReferencesAll(e.entries)
  }

  function ReferencesAll(es: seq<RelationEntry>): seq<string>
    decreases es, 0
  {
    if es == [] then [] else ReferencesAll(es[..|es| - 1]) + References(es[|es| - 1])
  }

  /** Flattening distributes over concatenation. */
  lemma NamesAllAppend(a: seq<RelationEntry>, b: seq<RelationEntry>)
    ensures CreatesAll(a + b) == CreatesAll(a) + CreatesAll(b)
    ensures ReferencesAll(a + b) == ReferencesAll(a) + ReferencesAll(b)
  {
    CreatesAllAppend(a, b);
    ReferencesAllAppend(a, b);
  }

  lemma {:induction false} CreatesAllAppend(a: seq<RelationEntry>, b: seq<RelationEntry>)
    ensures CreatesAll(a + b) == CreatesAll(a) + CreatesAll(b)
    decreases |b|
  {
    if b == [] {
      assert a + b == a;
    } else {
      var b' := b[..|b| - 1];
      assert (a + b)[..|a + b| - 1] == a + b';
      assert (a + b)[|a + b| - 1] == b[|b| - 1];
      CreatesAllAppend(a, b');
    }
  }

  lemma {:induction false} ReferencesAllAppend(a: seq<RelationEntry>, b: seq<RelationEntry>)
    ensures ReferencesAll(a + b) == ReferencesAll(a) + ReferencesAll(b)
    decreases |b|
  {
    if b == [] {
      assert a + b == a;
    } else {
      var b' := b[..|b| - 1];
      assert (a + b)[..|a + b| - 1] == a + b';
      assert (a + b)[|a + b| - 1] == b[|b| - 1];
      ReferencesAllAppend(a, b');
    }
  }

  /** The names of the first `k + 1` entries: those of the first `k`, then
      entry `k`'s. */
  lemma NamesAllPrefix(es: seq<RelationEntry>, k: nat)
    requires k < |es|
    ensures CreatesAll(es[..k + 1]) == CreatesAll(es[..k]) + Creates(es[k])
    ensures ReferencesAll(es[..k + 1]) == ReferencesAll(es[..k]) + References(es[k])
  {
    assert es[..k + 1][..k] == es[..k];
  }

  /** The names of a one-entry list are the entry's names. */
  lemma NamesAllSingle(x: RelationEntry)
    ensures CreatesAll([x]) == Creates(x)
    ensures ReferencesAll([x]) == References(x)
  {
    assert [x][..0] == [];
  }

  /** Pruning the empty sub-entries loses no name. */
  lemma {:induction false} NamesAllNonEmpty(es: seq<RelationEntry>)
    ensures CreatesAll(NonEmpty(es)) == CreatesAll(es)
    ensures ReferencesAll(NonEmpty(es)) == ReferencesAll(es)
    decreases |es|
  {
    if es != [] {
      var p := es[..|es| - 1];
      var x := es[|es| - 1];
      NamesAllNonEmpty(p);
      if IsEmpty(x) {
        assert NonEmpty(es) == NonEmpty(p) + [];
        assert NonEmpty(p) + [] == NonEmpty(p);
        assert CreatesAll(x.entries) == [] && ReferencesAll(x.entries) == [];
      } else {
        NamesAllAppend(NonEmpty(p), [x]);
        NamesAllSingle(x);
      }
    }
  }

  /** `reduce_relation_entry` as a value: one entry holding all the names,
      with no sub-entries. */
  function Reduce(e: RelationEntry): (r: RelationEntry)
    ensures r.entries == []
  {
    RelationEntry(Creates(e), References(e), [])
  }

  /** Reducing keeps every created and referenced name in order, and
      reducing a reduced entry changes nothing. */
  lemma ReduceIdempotent(e: RelationEntry)
    ensures Creates(Reduce(e)) == Creates(e)
    ensures References(Reduce(e)) == References(e)
    ensures Reduce(Reduce(e)) == Reduce(e)
  {
    assert Creates(Reduce(e)) == Creates(e) + CreatesAll([]);
    assert References(Reduce(e)) == References(e) + ReferencesAll([]);
  }

  /** `reduce_relation_entry`: own names, then each sub-entry reduced and
      appended. */
  method ReduceRelationEntry(e: RelationEntry) returns (r: RelationEntry)
    ensures r == Reduce(e)
    decreases e
  {
    var create := e.create;
    var reference := e.reference;
    var k := 0;
    while k < |e.entries|
      invariant k <= |e.entries|
      invariant create == e.create + CreatesAll(e.entries[..k])
      invariant reference == e.reference + ReferencesAll(e.entries[..k])
    {
      var sub := ReduceRelationEntry(e.entries[k]);
      ReduceStep(e, k, create, reference, sub);
      create := create + sub.create;
      reference := reference + sub.reference;
      k := k + 1;
    }
    assert e.entries[..k] == e.entries;
    r := RelationEntry(create, reference, []);
  }

  /** One turn of the loop of `reduce_relation_entry`: appending the
      reduced sub-entry `k` extends the names to the first `k + 1`
      sub-entries. */
  lemma ReduceStep(e: RelationEntry, k: nat, create: seq<string>, reference: seq<string>, sub: RelationEntry)
    requires k < |e.entries| && sub == Reduce(e.entries[k])
    requires create == e.create + CreatesAll(e.entries[..k])
    requires reference == e.reference + ReferencesAll(e.entries[..k])
    ensures create + sub.create == e.create + CreatesAll(e.entries[..k + 1])
    ensures reference + sub.reference == e.reference + ReferencesAll(e.entries[..k + 1])
  {
    NamesAllPrefix(e.entries, k);
  }

  function Reverse<T>(s: seq<T>): (r: seq<T>)
    ensures |r| == |s|
    ensures multiset(r) == multiset(s)
  {
    if s == [] then []
    else
      assert s == [s[0]] + s[1..];
      Reverse(s[1..]) + [s[0]]
  }

  /** `expand_relation_entry` as a value: nothing for an empty entry;
      otherwise the entry's own names without sub-entries, followed, for each
      sub-entry, by its expansion popped from the back (so reversed) with the
      empty elements dropped. */
  function Expand(e: RelationEntry): seq<RelationEntry>
    decreases e, 1
  {
    if IsEmpty(e) then []
    else [New(e.create, e.reference, [])] + ExpandAll(e.entries)
  }

  function ExpandAll(es: seq<RelationEntry>): seq<RelationEntry>
    decreases es, 0
  {
    if es == [] then []
    else ExpandAll(es[..|es| - 1]) + NonEmpty(Reverse(Expand(es[|es| - 1])))
  }

  /** Every element of an expansion is flat: it has no sub-entries. */
  lemma {:induction false} ExpandIsFlat(e: RelationEntry)
    ensures forall x :: x in Expand(e) ==> x.entries == []
    decreases e, 1
  {
    if !IsEmpty(e) {
      ExpandAllIsFlat(e.entries);
    }
  }

  lemma {:induction false} ExpandAllIsFlat(es: seq<RelationEntry>)
    ensures forall x :: x in ExpandAll(es) ==> x.entries == []
    decreases es, 0
  {
    if es != [] {
      var last := es[|es| - 1];
      ExpandAllIsFlat(es[..|es| - 1]);
      ExpandIsFlat(last);
      NonEmptyMembers(Reverse(Expand(last)));
      forall x | x in Reverse(Expand(last))
        ensures x.entries == []
      {
        assert x in multiset(Reverse(Expand(last)));
      }
    }
  }

  /** A non-empty entry expands to its own names first; an empty one to
      nothing. */
  lemma ExpandHead(e: RelationEntry)
    ensures IsEmpty(e) <==> Expand(e) == []
    ensures !IsEmpty(e) ==> Expand(e)[0] == RelationEntry(e.create, e.reference, [])
  {
  }

  /** The created names of a list of entries, element by element. */
  function FlatCreates(l: seq<RelationEntry>): seq<string> {
    if l == [] then [] else FlatCreates(l[..|l| - 1]) + l[|l| - 1].create
  }

  lemma {:induction false} FlatCreatesAppend(a: seq<RelationEntry>, b: seq<RelationEntry>)
    ensures FlatCreates(a + b) == FlatCreates(a) + FlatCreates(b)
    decreases |b|
  {
    if b == [] {
      assert a + b == a;
    } else {
      var b' := b[..|b| - 1];
      assert (a + b)[..|a + b| - 1] == a + b';
      FlatCreatesAppend(a, b');
    }
  }

  lemma {:induction false} FlatCreatesNonEmpty(s: seq<RelationEntry>)
    ensures FlatCreates(NonEmpty(s)) == FlatCreates(s)
    decreases |s|
  {
    if s != [] {
      var s' := s[..|s| - 1];
      FlatCreatesNonEmpty(s');
      var tail := if IsEmpty(s[|s| - 1]) then [] else [s[|s| - 1]];
      FlatCreatesAppend(NonEmpty(s'), tail);
    }
  }

  lemma {:induction false} FlatCreatesReverse(s: seq<RelationEntry>)
    ensures multiset(FlatCreates(Reverse(s))) == multiset(FlatCreates(s))
    decreases |s|
  {
    if s != [] {
      FlatCreatesReverse(s[1..]);
      FlatCreatesAppend(Reverse(s[1..]), [s[0]]);
      assert s == [s[0]] + s[1..];
      FlatCreatesAppend([s[0]], s[1..]);
      assert FlatCreates([s[0]]) == FlatCreates([]) + s[0].create;
    }
  }

  /** Expansion loses no created name: the names created by the expanded
      elements are, counted with multiplicity, those `Reduce` collects. */
  lemma {:induction false} ExpandKeepsCreates(e: RelationEntry)
    ensures multiset(FlatCreates(Expand(e))) == multiset(Creates(e))
    decreases e, 1
  {
    if IsEmpty(e) {
      assert e.entries == [];
    } else {
      ExpandAllKeepsCreates(e.entries);
      var head := New(e.create, e.reference, []);
      FlatCreatesAppend([head], ExpandAll(e.entries));
      assert FlatCreates([head]) == FlatCreates([]) + e.create;
    }
  }

  lemma {:induction false} ExpandAllKeepsCreates(es: seq<RelationEntry>)
    ensures multiset(FlatCreates(ExpandAll(es))) == multiset(CreatesAll(es))
    decreases es, 0
  {
    if es != [] {
      var last := es[|es| - 1];
      ExpandAllKeepsCreates(es[..|es| - 1]);
      ExpandKeepsCreates(last);
      FlatCreatesAppend(ExpandAll(es[..|es| - 1]), NonEmpty(Reverse(Expand(last))));
      FlatCreatesNonEmpty(Reverse(Expand(last)));
      FlatCreatesReverse(Expand(last));
    }
  }

  /** `expand_relation_entry`: the loop over the sub-entries, each expanded
      and popped element by element. */
  method ExpandRelationEntry(e: RelationEntry) returns (rels: seq<RelationEntry>)
    ensures rels == Expand(e)
    decreases e
  {
    rels := [];
    if |e.create| == 0 && |e.entries| == 0 && |e.reference| == 0 {
      ExpandHead(e);
      return;
    }
    var head := NewRelationEntry(e.create, e.reference, []);
    var tail: seq<RelationEntry> := [];
    var k := 0;
    while k < |e.entries|
      invariant k <= |e.entries|
      invariant tail == ExpandAll(e.entries[..k])
    {
      var expanded := ExpandRelationEntry(e.entries[k]);
      var popped := PopAllNonEmpty(expanded);
      ExpandAllPrefix(e.entries, k);
      tail := tail + popped;
      k := k + 1;
    }
    ExpandAssemble(e, head, tail);
    rels := [head] + tail;
  }

  /** A non-empty entry expands to its own names, then the expansion of
      all its sub-entries. */
  lemma ExpandAssemble(e: RelationEntry, head: RelationEntry, tail: seq<RelationEntry>)
    requires !IsEmpty(e) && head == New(e.create, e.reference, [])
    requires tail == ExpandAll(e.entries[..|e.entries|])
    ensures [head] + tail == Expand(e)
  {
    assert e.entries[..|e.entries|] == e.entries;
  }

  /** The expansion of the first `k + 1` entries: that of the first `k`,
      then entry `k`'s, reversed and without empty elements. */
  lemma ExpandAllPrefix(es: seq<RelationEntry>, k: nat)
    requires k < |es|
    ensures ExpandAll(es[..k + 1]) == ExpandAll(es[..k]) + NonEmpty(Reverse(Expand(es[k])))
  {
    assert es[..k + 1][..k] == es[..k];
  }

  /** The inner loop of `expand_relation_entry`: pop every element of a list
      and keep the non-empty ones. */
  method PopAllNonEmpty(l: seq<RelationEntry>) returns (out: seq<RelationEntry>)
    ensures out == NonEmpty(Reverse(l))
  {
    var n := |l|;
    out := [];
    while n > 0
      invariant 0 <= n <= |l|
      invariant out == NonEmpty(Reverse(l[n..]))
    {
      n := n - 1;
      var t := l[n];
      PopStep(l, n);
      if !(|t.create| == 0 && |t.entries| == 0 && |t.reference| == 0) {
        out := out + [t];
      }
    }
    assert l[0..] == l;
  }

  /** One pop: the suffix grows by the popped element at its front. */
  lemma PopStep(l: seq<RelationEntry>, n: nat)
    requires n < |l|
    ensures IsEmpty(l[n]) ==> NonEmpty(Reverse(l[n..])) == NonEmpty(Reverse(l[n + 1..]))
    ensures !IsEmpty(l[n]) ==> NonEmpty(Reverse(l[n..])) == NonEmpty(Reverse(l[n + 1..])) + [l[n]]
  {
    var x := l[n + 1..];
    assert l[n..] == [l[n]] + x;
    assert ([l[n]] + x)[1..] == x;
    assert Reverse(l[n..]) == Reverse(x) + [l[n]];
    NonEmptyAppend(Reverse(x), [l[n]]);
    assert NonEmpty([l[n]]) == NonEmpty([]) + (if IsEmpty(l[n]) then [] else [l[n]]);
  }

  /** An entry is first-order when it creates at least one name and neither
      references a name nor has sub-entries. */
  predicate IsFirstOrder(e: RelationEntry) {
    |e.create| > 0 && e.reference == [] && e.entries == []
  }

  /** `get_first_order_relations`: the same shape as the input, with each
      first-order entry kept and every other entry replaced by `None`. */
  method FirstOrderRelations(orig: seq<seq<RelationEntry>>) returns (r: seq<seq<Option<RelationEntry>>>)
    ensures |r| == |orig|
    ensures forall i :: 0 <= i < |r| ==> |r[i]| == |orig[i]|
    ensures forall i, j :: 0 <= i < |r| && 0 <= j < |r[i]| ==>
              (r[i][j].Some? <==> IsFirstOrder(orig[i][j])) &&
              (r[i][j].Some? ==> r[i][j].value == orig[i][j])
  {
    r := [];
    var i := 0;
    while i < |orig|
      invariant i <= |orig| && |r| == i
      invariant forall a :: 0 <= a < i ==> |r[a]| == |orig[a]|
      invariant forall a, j :: 0 <= a < i && 0 <= j < |r[a]| ==>
                  (r[a][j].Some? <==> IsFirstOrder(orig[a][j])) &&
                  (r[a][j].Some? ==> r[a][j].value == orig[a][j])
    {
      var sub: seq<Option<RelationEntry>> := [];
      var j := 0;
      while j < |orig[i]|
        invariant j <= |orig[i]| && |sub| == j
        invariant forall b :: 0 <= b < j ==>
                    (sub[b].Some? <==> IsFirstOrder(orig[i][b])) &&
                    (sub[b].Some? ==> sub[b].value == orig[i][b])
      {
        var expr := orig[i][j];
        if |expr.create| > 0 && |expr.reference| == 0 && |expr.entries| == 0 {
          var c := CloneEntry(expr);
          sub := sub + [Some(c)];
        } else {
          sub := sub + [None];
        }
        j := j + 1;
      }
      r := r + [sub];
      i := i + 1;
    }
  }

  /** `RelationEntry::clone`: a structural copy, sub-entry by sub-entry. */
  method CloneEntry(e: RelationEntry) returns (r: RelationEntry)
    ensures r == e
    decreases e
  {
    var ents: seq<RelationEntry> := [];
    var k := 0;
    while k < |e.entries|
      invariant k <= |e.entries|
      invariant ents == e.entries[..k]
    {
      var c := CloneEntry(e.entries[k]);
      ents := ents + [c];
      k := k + 1;
    }
    assert ents == e.entries;
    r := RelationEntry(e.create, e.reference, ents);
  }
}
